/** tools/coff2genix.py: a COFF kernel turned into the a.out the ROM monitor boots, and where its bytes end up. */
module Coff {
  import opened Bytes

  datatype Error =
    | NotCoff | OptionalHeader | BadMagic | Overlap   // sys.exit
    | Truncated | OutOfRange                         // struct.error
    | MissingSection                                 // KeyError
    | Undecodable                                    // UnicodeDecodeError

  type Checked<+T> = Result<T, Error>

  const ZMAGIC: nat := 267        // 0o413
  const NS32K_COFF: nat := 0x0154
  const TEXT: seq<byte> := [46, 116, 101, 120, 116]
  const DATA: seq<byte> := [46, 100, 97, 116, 97]
  const BSS: seq<byte> := [46, 98, 115, 115]

  // --- reading ---------------------------------------------------------------------

  /** `s[lo:hi]` with Python's negative indices. */
  function PySlice(s: seq<byte>, lo: int, hi: int): seq<byte> {
    var from := if lo < 0 then (if lo + |s| < 0 then 0 else lo + |s|) else Min(lo, |s|);
    var to := if hi < 0 then (if hi + |s| < 0 then 0 else hi + |s|) else Min(hi, |s|);
    if from < to then s[from..to] else []
  }

  /** `name.rstrip(b'\0')` */
  function Strip(name: seq<byte>): seq<byte> {
    if name != [] && name[|name| - 1] == 0 then Strip(name[..|name| - 1]) else name
  }

  predicate Tail8(b: byte) {
    0x80 <= b < 0xc0
  }

  /** What `bytes.decode()` accepts: UTF-8 as section 4 of RFC 3629 gives it, no overlong forms and no surrogates. */
  predicate Utf8(s: seq<byte>) {
    if s == [] then true
    else if s[0] < 0x80 then Utf8(s[1..])
    else if 0xc2 <= s[0] < 0xe0 then |s| >= 2 && Tail8(s[1]) && Utf8(s[2..])
    else if 0xe0 <= s[0] < 0xf0 then
      && |s| >= 3 && Tail8(s[1]) && Tail8(s[2])
      && (s[0] == 0xe0 ==> s[1] >= 0xa0) && (s[0] == 0xed ==> s[1] < 0xa0)
      && Utf8(s[3..])
    else
      && 0xf0 <= s[0] < 0xf5
      && |s| >= 4 && Tail8(s[1]) && Tail8(s[2]) && Tail8(s[3])
      && (s[0] == 0xf0 ==> s[1] >= 0x90) && (s[0] == 0xf4 ==> s[1] < 0x90)
      && Utf8(s[4..])
  }

  datatype Section = Section(paddr: int, size: int, ptr: int)

  function SectionOffset(i: nat): nat {
    60 + 48 * i
  }

  /** The section table after `n` headers: a later section replaces an earlier one of the same name. */
  function Table(d: seq<byte>, n: nat): Checked<map<seq<byte>, Section>> {
    if n == 0 then Success(map[]) else
      var t :- Table(d, n - 1);
      var off := SectionOffset(n - 1);
      if off + 24 > |d| then Failure(Truncated)
      else if !Utf8(Strip(d[off..off + 8])) then Failure(Undecodable)
      else Success(t[Strip(d[off..off + 8]) := Section(I32(d, off + 8), I32(d, off + 16), I32(d, off + 20))])
  }

  datatype Kernel = Kernel(text: Section, data: Section, bss: int, entry: int)

  function Parse(d: seq<byte>): Checked<Kernel> {
    if |d| < 20 then Failure(Truncated)
    else if U16(d, 0) != NS32K_COFF then Failure(NotCoff)
    else if U16(d, 16) != 40 then Failure(OptionalHeader)
    else if |d| < 60 then Failure(Truncated)
    else if I16(d, 20) != ZMAGIC then Failure(BadMagic)
    else
      var t :- Table(d, U16(d, 2));
      if TEXT !in t || DATA !in t || BSS !in t then Failure(MissingSection)
      else Success(Kernel(t[TEXT], t[DATA], t[BSS].size, I32(d, 44)))
  }

  // --- writing ---------------------------------------------------------------------

  predicate Fits(x: int) {
    0 <= x < 0x1_0000_0000
  }

  /** The 15 words of the exec header for text padded to `aText` bytes. */
  function Header(k: Kernel, aText: nat): seq<nat>
    requires HeaderFits(k, aText)
  {
    [ZMAGIC, aText, k.data.size, k.bss, 0, k.entry, 0, 0, 0, 0x20, 0, 0, k.text.paddr, 0, k.data.paddr]
  }

  predicate HeaderFits(k: Kernel, aText: int) {
    Fits(aText) && Fits(k.data.size) && Fits(k.bss) && Fits(k.entry) && Fits(k.text.paddr) && Fits(k.data.paddr)
  }

  /** Header, text padded to `aText` bytes, data. */
  function Output(d: seq<byte>, k: Kernel, aText: nat): seq<byte>
    requires HeaderFits(k, aText)
  {
    Pad(Words(Header(k, aText)), 1024)
    + Pad(PySlice(d, k.text.ptr, k.text.ptr + k.text.size), aText)
    + PySlice(d, k.data.ptr, k.data.ptr + k.data.size)
  }

  function Gap(k: Kernel): int {
    k.data.paddr - k.text.paddr
  }

  function Convert(d: seq<byte>): Checked<seq<byte>> {
    var k :- Parse(d);
    if Gap(k) < k.text.size then Failure(Overlap)
    else if !HeaderFits(k, Gap(k)) then Failure(OutOfRange)
    else Success(Output(d, k, Gap(k)))
  }

  lemma FitsText(k: Kernel, aText: int)
    requires HeaderFits(k, aText)
    ensures 0 <= aText
  {
  }

  /** The loop that fills `sections`. */
  method ReadTable(d: seq<byte>, nscns: nat) returns (r: Checked<map<seq<byte>, Section>>)
    ensures r == Table(d, nscns)
  {
    hide Strip, Utf8, I32;
    var sections: map<seq<byte>, Section> := map[];
    for i := 0 to nscns
      invariant Table(d, i) == Success(sections)
    {
      var off := 20 + 40 + i * 48;
      TableFails(d, i + 1, nscns);
      if off + 24 > |d| {
        return Failure(Truncated);
      }
      if !Utf8(Strip(d[off..off + 8])) {
        return Failure(Undecodable);
      }
      sections := sections[Strip(d[off..off + 8]) := Section(I32(d, off + 8), I32(d, off + 16), I32(d, off + 20))];
    }
    return Success(sections);
  }

  /** A table cut short stays cut short. */
  lemma {:induction false} TableFails(d: seq<byte>, i: nat, n: nat)
    requires i <= n
    ensures Table(d, i).Failure? ==> Table(d, n) == Table(d, i)
    decreases n - i
  {
    hide Strip, Utf8, I32;
    if i < n {
      TableFails(d, i + 1, n);
    }
  }

  /** A section is what the last header of its name says, and a name no header carries is not there. */
  lemma {:induction false} LastSectionCounts(d: seq<byte>, n: nat, name: seq<byte>, i: nat)
    requires Table(d, n).Success? && i <= n
    requires forall j :: i <= j < n ==> !Named(d, j, name)
    ensures i > 0 && Named(d, i - 1, name) ==>
      name in Table(d, n).value && Table(d, n).value[name] == SectionAt(d, i - 1)
    ensures i == 0 ==> name !in Table(d, n).value
  {
    hide Strip, Utf8, I32;
    if n > i {
      assert !Named(d, n - 1, name);
      LastSectionCounts(d, n - 1, name, i);
    }
  }

  /** The table is read exactly when every header lies within the file and its name is UTF-8. */
  lemma {:induction false} TableSucceedsWhen(d: seq<byte>, n: nat)
    ensures Table(d, n).Success? <==> forall i :: 0 <= i < n ==> Legible(d, i)
  {
    hide Strip, Utf8, I32;
    if n > 0 {
      TableSucceedsWhen(d, n - 1);
      assert Legible(d, n - 1) <==>
        SectionOffset(n - 1) + 24 <= |d| && Utf8(Strip(d[SectionOffset(n - 1)..SectionOffset(n - 1) + 8]));
    }
  }

  predicate Legible(d: seq<byte>, i: nat) {
    SectionOffset(i) + 24 <= |d| && Utf8(Strip(d[SectionOffset(i)..SectionOffset(i) + 8]))
  }

  predicate Named(d: seq<byte>, i: nat, name: seq<byte>) {
    SectionOffset(i) + 24 <= |d| && Strip(d[SectionOffset(i)..SectionOffset(i) + 8]) == name
  }

  function SectionAt(d: seq<byte>, i: nat): Section
    requires SectionOffset(i) + 24 <= |d|
  {
    Section(I32(d, SectionOffset(i) + 8), I32(d, SectionOffset(i) + 16), I32(d, SectionOffset(i) + 20))
  }

  // --- loading ---------------------------------------------------------------------

  /** The file has a byte for address `a` when its body starts at `base`. */
  predicate InFile(out: seq<byte>, base: int, a: int) {
    base <= a && 1024 + a - base < |out|
  }

  function FileByte(out: seq<byte>, base: int, a: int): byte
    requires InFile(out, base, a)
  {
    out[1024 + a - base]
  }

  /** What the ROM puts in memory: `a_text` bytes at `a_text_addr`, the data straight after them. */
  function Load(out: seq<byte>): map<int, byte>
    requires |out| >= 1024
  {
    var text, data, base := U32(out, 4), U32(out, 8), U32(out, 48);
    map a | base <= a < base + text + data && InFile(out, base, a) :: FileByte(out, base, a)
  }

  /** The text and data of the kernel lie within the file. */
  predicate Within(d: seq<byte>, k: Kernel) {
    && 0 <= k.text.ptr && 0 <= k.text.size && k.text.ptr + k.text.size <= |d|
    && 0 <= k.data.ptr && 0 <= k.data.size && k.data.ptr + k.data.size <= |d|
  }

  lemma HeaderWords(k: Kernel, aText: nat)
    requires HeaderFits(k, aText)
    ensures var p := Pad(Words(Header(k, aText)), 1024);
      |p| == 1024 && U32(p, 4) == aText && U32(p, 8) == k.data.size && U32(p, 48) == k.text.paddr
  {
    var h := Header(k, aText);
    PaddedWordAt(h, 256, 1);
    PaddedWordAt(h, 256, 2);
    PaddedWordAt(h, 256, 12);
  }

  lemma WordInFront(p: seq<byte>, rest: seq<byte>, i: nat)
    requires i + 4 <= |p|
    ensures U32(p + rest, i) == U32(p, i)
  {
  }

  /** Byte `i` past the header of an output whose text was padded to `aText`. */
  function Body(d: seq<byte>, k: Kernel, aText: nat, i: int): byte
    requires Within(d, k) && k.text.size <= aText && 0 <= i < aText + k.data.size
  {
    if i < k.text.size then d[k.text.ptr + i]
    else if i < aText then 0
    else d[k.data.ptr + i - aText]
  }

  lemma SliceWithin(d: seq<byte>, ptr: int, size: int)
    requires 0 <= ptr && 0 <= size && ptr + size <= |d|
    ensures PySlice(d, ptr, ptr + size) == d[ptr..ptr + size]
  {
  }

  lemma PadByte(s: seq<byte>, n: nat, i: nat)
    requires |s| <= n && i < n
    ensures Pad(s, n)[i] == if i < |s| then s[i] else 0
  {
  }

  lemma OutputParts(d: seq<byte>, k: Kernel, aText: nat)
    requires HeaderFits(k, aText)
    ensures var out := Output(d, k, aText);
      |out| >= 1024 && U32(out, 4) == aText && U32(out, 8) == k.data.size && U32(out, 48) == k.text.paddr
  {
    HeaderWords(k, aText);
    var head := Pad(Words(Header(k, aText)), 1024);
    var text := Pad(PySlice(d, k.text.ptr, k.text.ptr + k.text.size), aText);
    var data := PySlice(d, k.data.ptr, k.data.ptr + k.data.size);
    assert Output(d, k, aText) == head + text + data;
    hide Output, HeaderFits, Header, Words, PySlice, U32, Pad;
    WordsInFront(head, text, data);
  }

  lemma WordsInFront(p: seq<byte>, a: seq<byte>, b: seq<byte>)
    requires |p| == 1024
    ensures var out := p + a + b; U32(out, 4) == U32(p, 4) && U32(out, 8) == U32(p, 8) && U32(out, 48) == U32(p, 48)
  {
    hide U32;
    Assoc(p, a, b);
    WordInFront(p, a + b, 4);
    WordInFront(p, a + b, 8);
    WordInFront(p, a + b, 48);
  }

  /** The part of an output after its header. */
  function Tail(d: seq<byte>, k: Kernel, aText: nat): seq<byte> {
    Pad(PySlice(d, k.text.ptr, k.text.ptr + k.text.size), aText) + PySlice(d, k.data.ptr, k.data.ptr + k.data.size)
  }

  lemma TextThenData(a: seq<byte>, b: seq<byte>, aText: nat, i: nat)
    requires |a| <= aText && i < aText + |b|
    ensures (Pad(a, aText) + b)[i] == if i < |a| then a[i] else if i < aText then 0 else b[i - aText]
  {
    if i < aText {
      PadByte(a, aText, i);
    }
    hide Pad;
  }

  lemma TailByte(d: seq<byte>, k: Kernel, aText: nat, i: nat)
    requires Within(d, k) && k.text.size <= aText
    ensures |Tail(d, k, aText)| == aText + k.data.size
    ensures i < aText + k.data.size ==> Tail(d, k, aText)[i] == Body(d, k, aText, i)
  {
    hide PySlice, Pad;
    SliceWithin(d, k.text.ptr, k.text.size);
    SliceWithin(d, k.data.ptr, k.data.size);
    var a, b := d[k.text.ptr..k.text.ptr + k.text.size], d[k.data.ptr..k.data.ptr + k.data.size];
    assert Tail(d, k, aText) == Pad(a, aText) + b;
    hide Tail;
    if i < aText + k.data.size {
      TextThenData(a, b, aText, i);
    }
  }

  lemma OutputTail(d: seq<byte>, k: Kernel, aText: nat)
    requires HeaderFits(k, aText)
    ensures |Output(d, k, aText)| == 1024 + |Tail(d, k, aText)| && Output(d, k, aText)[1024..] == Tail(d, k, aText)
  {
    HeaderWords(k, aText);
    hide HeaderFits, Header, Words, PySlice, Pad, U32;
    var head := Pad(Words(Header(k, aText)), 1024);
    Assoc(head, Pad(PySlice(d, k.text.ptr, k.text.ptr + k.text.size), aText),
          PySlice(d, k.data.ptr, k.data.ptr + k.data.size));
  }

  lemma OutputByte(d: seq<byte>, k: Kernel, aText: nat, i: nat)
    requires HeaderFits(k, aText) && Within(d, k) && k.text.size <= aText
    ensures |Output(d, k, aText)| == 1024 + aText + k.data.size
    ensures i < aText + k.data.size ==> Output(d, k, aText)[1024 + i] == Body(d, k, aText, i)
  {
    hide Output, Tail, HeaderFits, Body;
    OutputTail(d, k, aText);
    TailByte(d, k, aText, i);
    if i < aText + k.data.size {
      assert Output(d, k, aText)[1024 + i] == Output(d, k, aText)[1024..][i];
    }
  }

  /** Exactly which addresses are loaded, and with what. */
  lemma Loaded(d: seq<byte>, k: Kernel, aText: nat, a: int)
    requires HeaderFits(k, aText) && Within(d, k) && k.text.size <= aText
    ensures |Output(d, k, aText)| >= 1024
    ensures var m := Load(Output(d, k, aText));
      && (a in m <==> k.text.paddr <= a < k.text.paddr + aText + k.data.size)
      && (a in m ==> m[a] == Body(d, k, aText, a - k.text.paddr))
  {
    hide Output, Body, HeaderFits, U32;
    OutputParts(d, k, aText);
    OutputByte(d, k, aText, 0);
    if k.text.paddr <= a < k.text.paddr + aText + k.data.size {
      OutputByte(d, k, aText, a - k.text.paddr);
      assert Load(Output(d, k, aText))[a] == FileByte(Output(d, k, aText), k.text.paddr, a);
    }
  }

  ghost predicate At(m: map<int, byte>, a: int, b: byte) {
    a in m && m[a] == b
  }

  /** What placing a kernel means: every text and data byte at the address its section was linked to, zeros in the
      gap between them, and nothing anywhere else. */
  ghost predicate Placed(d: seq<byte>, k: Kernel, m: map<int, byte>)
    requires Within(d, k)
  {
    forall a: int :: PlacedAt(d, k, m, a)
  }

  ghost predicate PlacedAt(d: seq<byte>, k: Kernel, m: map<int, byte>, a: int)
    requires Within(d, k)
  {
    if k.text.paddr <= a < k.text.paddr + k.text.size then At(m, a, d[k.text.ptr + (a - k.text.paddr)])
    else if k.text.paddr + k.text.size <= a < k.data.paddr then At(m, a, 0)
    else if k.data.paddr <= a < k.data.paddr + k.data.size then At(m, a, d[k.data.ptr + (a - k.data.paddr)])
    else a !in m
  }

  lemma ConvertIs(d: seq<byte>)
    requires Convert(d).Success?
    ensures Parse(d).Success?
    ensures var k := Parse(d).value;
      && Gap(k) >= k.text.size && Gap(k) >= 0 && HeaderFits(k, Gap(k))
      && Convert(d).value == Output(d, k, Gap(k))
  {
    hide Parse, Output;
  }

  /** Loading an accepted kernel places it. */
  lemma KernelPlaced(d: seq<byte>)
    requires Convert(d).Success? && Parse(d).Success? && Within(d, Parse(d).value)
    ensures |Convert(d).value| >= 1024 && Placed(d, Parse(d).value, Load(Convert(d).value))
  {
    hide Convert, Parse, Load, Output, HeaderFits;
    var k := Parse(d).value;
    ConvertIs(d);
    Loaded(d, k, Gap(k), 0);
    var m := Load(Convert(d).value);
    forall a: int
      ensures PlacedAt(d, k, m, a)
    {
      Loaded(d, k, Gap(k), a);
    }
  }

  // --- from the bytes of the file ------------------------------------------------------

  lemma {:induction false} StripZeros(x: seq<byte>)
    ensures |Strip(x)| <= |x| && x == Strip(x) + Zeros(|x| - |Strip(x)|)
    ensures Strip(x) != [] ==> Strip(x)[|Strip(x)| - 1] != 0
  {
    if x != [] && x[|x| - 1] == 0 {
      StripZeros(x[..|x| - 1]);
      assert x == x[..|x| - 1] + [0];
    }
  }

  lemma StripIs(x: seq<byte>, name: seq<byte>)
    requires |x| == 8 && 0 < |name| <= 8 && name[|name| - 1] != 0
    ensures Strip(x) == name <==> x == Pad(name, 8)
  {
    StripZeros(x);
    var s := Strip(x);
    hide Strip;
    assert forall j :: |s| <= j < 8 ==> x[j] == 0;
    assert s != [] ==> x[|s| - 1] == s[|s| - 1] != 0;
    if x == Pad(name, 8) {
      assert forall j :: |name| <= j < 8 ==> x[j] == 0;
      assert x[|name| - 1] == name[|name| - 1] != 0;
      assert |s| == |name|;
      assert s == x[..|s|] && name == x[..|name|];
    }
  }

  /** Header `i` carries name `name`, of at most eight bytes. */
  predicate Carries(d: seq<byte>, i: nat, name: seq<byte>) {
    60 + 48 * i + 24 <= |d| && d[60 + 48 * i..68 + 48 * i] == Pad(name, 8)
  }

  lemma CarriesIs(d: seq<byte>, i: nat, name: seq<byte>)
    requires 0 < |name| <= 8 && name[|name| - 1] != 0
    ensures Carries(d, i, name) <==> Named(d, i, name)
  {
    if 60 + 48 * i + 24 <= |d| {
      StripIs(d[60 + 48 * i..68 + 48 * i], name);
    }
  }

  /** Header `i` is the last of `n` that carries this name. */
  predicate LastHeader(d: seq<byte>, n: nat, i: nat, name: seq<byte>) {
    i < n && Carries(d, i, name) && forall j :: i < j < n ==> !Carries(d, j, name)
  }

  lemma {:induction false} SomeLast(d: seq<byte>, n: nat, name: seq<byte>) returns (i: nat)
    ensures LastHeader(d, n, i, name) || forall j :: 0 <= j < n ==> !Carries(d, j, name)
    decreases n
  {
    hide Carries;
    i := 0;
    if n > 0 {
      if Carries(d, n - 1, name) {
        i := n - 1;
      } else {
        i := SomeLast(d, n - 1, name);
      }
    }
  }

  /** A name is in the table exactly when a header carries it, and then its section is that of the last such header. */
  lemma TableHas(d: seq<byte>, n: nat, name: seq<byte>, i: nat)
    requires Table(d, n).Success? && 0 < |name| <= 8 && name[|name| - 1] != 0
    ensures name in Table(d, n).value <==> exists j :: LastHeader(d, n, j, name)
    ensures LastHeader(d, n, i, name) ==> name in Table(d, n).value && Table(d, n).value[name] == RawSection(d, i)
  {
    hide Table, Named, Carries;
    forall j: nat
      ensures Carries(d, j, name) <==> Named(d, j, name)
    {
      CarriesIs(d, j, name);
    }
    var k := SomeLast(d, n, name);
    if LastHeader(d, n, k, name) {
      SectionCounts(d, n, name, k);
    } else {
      LastSectionCounts(d, n, name, 0);
    }
    if LastHeader(d, n, i, name) {
      SectionCounts(d, n, name, i);
    }
  }

  /** Address, size and file offset from the header's bytes. */
  function RawSection(d: seq<byte>, i: nat): Section
    requires 60 + 48 * i + 24 <= |d|
  {
    Section(I32(d, 68 + 48 * i), I32(d, 76 + 48 * i), I32(d, 80 + 48 * i))
  }

  lemma SectionCounts(d: seq<byte>, n: nat, name: seq<byte>, i: nat)
    requires Table(d, n).Success? && i < n && Named(d, i, name) && forall j :: i < j < n ==> !Named(d, j, name)
    ensures 60 + 48 * i + 24 <= |d| && name in Table(d, n).value && Table(d, n).value[name] == RawSection(d, i)
  {
    LastSectionCounts(d, n, name, i + 1);
    hide Table, I32, Strip;
  }

  /** What `main` accepts, from the bytes: `t`, `a` and `b` are the last headers for text, data and bss. */
  ghost predicate Accepts(d: seq<byte>, t: nat, a: nat, b: nat) {
    && |d| >= 60 && U16(d, 0) == 0x154 && U16(d, 16) == 40 && I16(d, 20) == 0x10b
    && (forall i :: 0 <= i < U16(d, 2) ==> Legible(d, i))
    && LastHeader(d, U16(d, 2), t, [0x2e, 0x74, 0x65, 0x78, 0x74])     // .text
    && LastHeader(d, U16(d, 2), a, [0x2e, 0x64, 0x61, 0x74, 0x61])     // .data
    && LastHeader(d, U16(d, 2), b, [0x2e, 0x62, 0x73, 0x73])           // .bss
    && var text, data, bss := RawSection(d, t), RawSection(d, a), RawSection(d, b);
    && 0 <= text.paddr && 0 <= data.paddr && 0 <= data.size && 0 <= bss.size && 0 <= I32(d, 44)
    && data.paddr - text.paddr >= text.size && data.paddr >= text.paddr
  }

  lemma AcceptsParses(d: seq<byte>, t: nat, a: nat, b: nat)
    requires Accepts(d, t, a, b)
    ensures Parse(d) == Success(Kernel(RawSection(d, t), RawSection(d, a), RawSection(d, b).size, I32(d, 44)))
    ensures Convert(d).Success?
  {
    hide Legible, LastHeader, Table, U16, I16, I32;
    TableSucceedsWhen(d, U16(d, 2));
    TableHas(d, U16(d, 2), TEXT, t);
    TableHas(d, U16(d, 2), DATA, a);
    TableHas(d, U16(d, 2), BSS, b);
  }

  lemma ParsesAccepts(d: seq<byte>) returns (t: nat, a: nat, b: nat)
    requires Convert(d).Success?
    ensures Accepts(d, t, a, b)
  {
    hide Legible, LastHeader, Table, U16, I16, I32, Output;
    TableSucceedsWhen(d, U16(d, 2));
    TableHas(d, U16(d, 2), TEXT, 0);
    TableHas(d, U16(d, 2), DATA, 0);
    TableHas(d, U16(d, 2), BSS, 0);
    t :| LastHeader(d, U16(d, 2), t, TEXT);
    a :| LastHeader(d, U16(d, 2), a, DATA);
    b :| LastHeader(d, U16(d, 2), b, BSS);
    TableHas(d, U16(d, 2), TEXT, t);
    TableHas(d, U16(d, 2), DATA, a);
    TableHas(d, U16(d, 2), BSS, b);
  }

  /** A file is converted exactly when its bytes are acceptable. */
  lemma ConvertSucceedsWhen(d: seq<byte>)
    ensures Convert(d).Success? <==> exists t, a, b :: Accepts(d, t, a, b)
  {
    hide Convert, Accepts;
    if Convert(d).Success? {
      var t, a, b := ParsesAccepts(d);
    }
    if t, a, b :| Accepts(d, t, a, b) {
      AcceptsParses(d, t, a, b);
    }
  }

  /** The exec header of an output, every word of it, from the bytes of the file. */
  ghost predicate ExecHeader(out: seq<byte>, d: seq<byte>, t: nat, a: nat, b: nat)
    requires Accepts(d, t, a, b)
  {
    var text, data, bss := RawSection(d, t), RawSection(d, a), RawSection(d, b);
    && |out| >= 1024
    && U32(out, 0) == 0x10b && U32(out, 4) == data.paddr - text.paddr && U32(out, 8) == data.size
    && U32(out, 12) == bss.size && U32(out, 16) == 0 && U32(out, 20) == I32(d, 44)
    && U32(out, 24) == 0 && U32(out, 28) == 0 && U32(out, 32) == 0 && U32(out, 36) == 0x20
    && U32(out, 40) == 0 && U32(out, 44) == 0
    && U32(out, 48) == text.paddr && U32(out, 52) == 0 && U32(out, 56) == data.paddr
    && forall i :: 60 <= i < 1024 ==> out[i] == 0
  }

  lemma HeaderWord(d: seq<byte>, k: Kernel, aText: nat, i: nat)
    requires HeaderFits(k, aText) && i < 15
    ensures |Output(d, k, aText)| >= 1024 && U32(Output(d, k, aText), 4 * i) == Header(k, aText)[i]
  {
    var h := Header(k, aText);
    PaddedWordAt(h, 256, i);
    hide Words, Pad, PySlice, U32, Header;
    var p := Pad(Words(h), 1024);
    var text := Pad(PySlice(d, k.text.ptr, k.text.ptr + k.text.size), aText);
    var data := PySlice(d, k.data.ptr, k.data.ptr + k.data.size);
    Assoc(p, text, data);
    WordInFront(p, text + data, 4 * i);
  }

  lemma HeaderRest(d: seq<byte>, k: Kernel, aText: nat)
    requires HeaderFits(k, aText)
    ensures |Output(d, k, aText)| >= 1024 && forall i :: 60 <= i < 1024 ==> Output(d, k, aText)[i] == 0
  {
    var w := Words(Header(k, aText));
    assert |w| == 60;
    hide Words, PySlice, Header;
    var p := Pad(w, 1024);
    assert forall i :: 60 <= i < 1024 ==> p[i] == 0;
    assert forall i :: 60 <= i < 1024 ==> Output(d, k, aText)[i] == p[i];
  }

  lemma WordsAre(out: seq<byte>, h: seq<nat>)
    requires |out| >= 60 && |h| == 15 && forall i :: 0 <= i < 15 ==> U32(out, 4 * i) == h[i]
    ensures U32(out, 0) == h[0] && U32(out, 4) == h[1] && U32(out, 8) == h[2] && U32(out, 12) == h[3]
    ensures U32(out, 16) == h[4] && U32(out, 20) == h[5] && U32(out, 24) == h[6] && U32(out, 28) == h[7]
    ensures U32(out, 32) == h[8] && U32(out, 36) == h[9] && U32(out, 40) == h[10] && U32(out, 44) == h[11]
    ensures U32(out, 48) == h[12] && U32(out, 52) == h[13] && U32(out, 56) == h[14]
  {
    hide U32;
    assert U32(out, 4 * 0) == h[0] && U32(out, 4 * 1) == h[1] && U32(out, 4 * 2) == h[2] && U32(out, 4 * 3) == h[3];
    assert U32(out, 4 * 4) == h[4] && U32(out, 4 * 5) == h[5] && U32(out, 4 * 6) == h[6] && U32(out, 4 * 7) == h[7];
    assert U32(out, 4 * 8) == h[8] && U32(out, 4 * 9) == h[9] && U32(out, 4 * 10) == h[10] && U32(out, 4 * 11) == h[11];
    assert U32(out, 4 * 12) == h[12] && U32(out, 4 * 13) == h[13] && U32(out, 4 * 14) == h[14];
  }

  lemma OutputHeader(d: seq<byte>, k: Kernel, aText: nat)
    requires HeaderFits(k, aText)
    ensures var out, h := Output(d, k, aText), Header(k, aText);
      |out| >= 1024 && |h| == 15 && forall i :: 0 <= i < 15 ==> U32(out, 4 * i) == h[i]
  {
    HeaderRest(d, k, aText);
    assert |Header(k, aText)| == 15;
    hide Header, Output, HeaderFits, U32;
    forall i | 0 <= i < 15
      ensures U32(Output(d, k, aText), 4 * i) == Header(k, aText)[i]
    {
      HeaderWord(d, k, aText, i);
    }
  }

  lemma HeaderSays(k: Kernel, aText: nat)
    requires HeaderFits(k, aText)
    ensures var h := Header(k, aText);
      && |h| == 15 && h[0] == 0x10b && h[1] == aText && h[2] == k.data.size && h[3] == k.bss && h[4] == 0
      && h[5] == k.entry && h[6] == 0 && h[7] == 0 && h[8] == 0 && h[9] == 0x20 && h[10] == 0 && h[11] == 0
      && h[12] == k.text.paddr && h[13] == 0 && h[14] == k.data.paddr
  {
  }

  lemma HeaderIs(d: seq<byte>, t: nat, a: nat, b: nat)
    requires Accepts(d, t, a, b)
    ensures Convert(d).Success? && ExecHeader(Convert(d).value, d, t, a, b)
  {
    hide Convert, Parse, Output, Header, HeaderFits, Legible, LastHeader, Table, RawSection, U32, U16, I16, I32;
    AcceptsSections(d, t, a, b);
    AcceptsParses(d, t, a, b);
    var k := Parse(d).value;
    hide Accepts;
    ConvertIs(d);
    HeaderRest(d, k, Gap(k));
    OutputHeader(d, k, Gap(k));
    HeaderSays(k, Gap(k));
    WordsAre(Convert(d).value, Header(k, Gap(k)));
  }

  /** What an output is, from the bytes of the file: there is one exactly when the file is acceptable, and its header is
      that of the last sections. */
  ghost predicate Converted(d: seq<byte>, r: Checked<seq<byte>>) {
    && (r.Success? <==> exists t, a, b :: Accepts(d, t, a, b))
    && forall t, a, b :: Accepts(d, t, a, b) ==>
      && Parse(d) == Success(Kernel(RawSection(d, t), RawSection(d, a), RawSection(d, b).size, I32(d, 44)))
      && r.Success? && ExecHeader(r.value, d, t, a, b)
  }

  lemma ConversionIs(d: seq<byte>)
    ensures Converted(d, Convert(d))
  {
    hide Convert, Parse, Accepts, ExecHeader, I32;
    ConvertSucceedsWhen(d);
    forall t, a, b | Accepts(d, t, a, b)
      ensures LastThree(d, t, a, b)
      ensures Parse(d) == Success(Kernel(RawSection(d, t), RawSection(d, a), RawSection(d, b).size, I32(d, 44)))
      ensures Convert(d).Success? && ExecHeader(Convert(d).value, d, t, a, b)
    {
      AcceptsSections(d, t, a, b);
      AcceptsParses(d, t, a, b);
      HeaderIs(d, t, a, b);
    }
  }

  predicate LastThree(d: seq<byte>, t: nat, a: nat, b: nat) {
    |d| >= 60 && 60 + 48 * t + 24 <= |d| && 60 + 48 * a + 24 <= |d| && 60 + 48 * b + 24 <= |d|
  }

  lemma AcceptsSections(d: seq<byte>, t: nat, a: nat, b: nat)
    requires Accepts(d, t, a, b)
    ensures LastThree(d, t, a, b)
  {
  }

  /** `main`, from the bytes read to the bytes written: whatever it accepts, if its slices lie within the file, is
      placed when loaded. */
  method ConvertFile(d: seq<byte>) returns (r: Checked<seq<byte>>)
    ensures r == Convert(d)
    ensures r.Success? ==> Parse(d).Success? && (Within(d, Parse(d).value) ==>
      |r.value| >= 1024 && Placed(d, Parse(d).value, Load(r.value)))
    ensures Converted(d, r)
  {
    ConversionIs(d);
    hide Converted, Words, Strip, Utf8, Pad, PySlice, HeaderFits, Header, U16, I16, U32, I32, Within, Placed, Load;
    if |d| < 20 {
      return Failure(Truncated);
    }
    if U16(d, 0) != NS32K_COFF {
      return Failure(NotCoff);
    }
    if U16(d, 16) != 40 {
      return Failure(OptionalHeader);
    }
    if |d| < 60 {
      return Failure(Truncated);
    }
    if I16(d, 20) != ZMAGIC {
      return Failure(BadMagic);
    }
    var sections :- ReadTable(d, U16(d, 2));
    if TEXT !in sections || DATA !in sections || BSS !in sections {
      return Failure(MissingSection);
    }
    var k := Kernel(sections[TEXT], sections[DATA], sections[BSS].size, I32(d, 44));
    var aText := k.data.paddr - k.text.paddr;
    if aText < k.text.size {
      return Failure(Overlap);
    }
    if !HeaderFits(k, aText) {
      return Failure(OutOfRange);
    }
    FitsText(k, aText);
    var out := Pad(Words(Header(k, aText)), 1024);
    out := out + Pad(PySlice(d, k.text.ptr, k.text.ptr + k.text.size), aText);
    out := out + PySlice(d, k.data.ptr, k.data.ptr + k.data.size);
    assert Convert(d) == Success(out);
    if Within(d, k) {
      KernelPlaced(d);
    }
    return Success(out);
  }

  function RoundUp512(n: nat): nat {
    (n + 511) / 512 * 512
  }

  lemma RoundUpAbove(n: nat)
    ensures RoundUp512(n) >= n
  {
  }

  lemma WithinSizes(d: seq<byte>, k: Kernel)
    requires Within(d, k)
    ensures k.text.size >= 0 && k.data.size >= 0
  {
  }

  /** Padding the text to a multiple of 512 instead, as 5toG does, gives the same memory exactly when the data was
      linked at that multiple. */
  lemma RoundingPlaces(d: seq<byte>, k: Kernel)
    requires Within(d, k) && k.text.size <= Gap(k) && HeaderFits(k, Gap(k)) && HeaderFits(k, RoundUp512(k.text.size))
    ensures |Output(d, k, Gap(k))| >= 1024 && |Output(d, k, RoundUp512(k.text.size))| >= 1024
    ensures Load(Output(d, k, RoundUp512(k.text.size))) == Load(Output(d, k, Gap(k)))
      <==> RoundUp512(k.text.size) == k.data.paddr - k.text.paddr
  {
    hide Load, Output, HeaderFits, Body, RoundUp512, Within, U32;
    WithinSizes(d, k);
    RoundUpAbove(k.text.size);
    var r, g := RoundUp512(k.text.size), Gap(k);
    var end := k.text.paddr + (if r > g then g else r) + k.data.size;
    Loaded(d, k, g, end);
    Loaded(d, k, r, end);
  }
}

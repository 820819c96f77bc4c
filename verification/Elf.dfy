/**
 Loading one program segment (elf_load_seg of lib/elfloader.c with load_icode_mapper of
 kern/env.c as its page mapper).
 */
module Elf {
  const PAGE_SIZE: nat := 4096

  type Byte = bv8

  datatype Page = Page(data: seq<Byte>, writable: bool)

  /**
   An address space by page number, the log of pages mapped so far, and how many more mapper
   calls will find the memory they need.
   */
  datatype Space = Space(pages: map<nat, Page>, log: seq<nat>, budget: nat)

  /** A program header and the file contents it points to. */
  datatype Segment = Segment(va: nat, filesz: nat, memsz: nat, writable: bool, bin: seq<Byte>)

  /** The file holds the segment's bytes, and no address computed on the way passes 2^32. */
  predicate WellFormed(s: Segment) {
    && s.filesz <= |s.bin|
    && s.va + s.filesz + PAGE_SIZE <= 0x1_0000_0000 && s.va + s.memsz + PAGE_SIZE <= 0x1_0000_0000
  }

  function Min(a: nat, b: nat): nat { if a < b then a else b }

  function Max(a: nat, b: nat): nat { if a < b then b else a }

  // ---- the mapper ----

  /** A zeroed page with `src` copied to `offset`. */
  function Filled(offset: nat, src: seq<Byte>): (d: seq<Byte>)
    requires offset + |src| <= PAGE_SIZE
    ensures |d| == PAGE_SIZE
  {
    seq(PAGE_SIZE, j requires 0 <= j < PAGE_SIZE => if offset <= j < offset + |src| then src[j - offset] else 0)
  }

  /** load_icode_mapper: a new page replaces whatever was mapped at the page of `va`. */
  function MapPage(m: Space, va: nat, offset: nat, writable: bool, src: seq<Byte>): (bool, Space)
    requires offset + |src| <= PAGE_SIZE
  {
    if m.budget == 0 then (false, m)
    else
      var p := va / PAGE_SIZE;
      (true, Space(m.pages[p := Page(Filled(offset, src), writable)], m.log + [p], m.budget - 1))
  }

  // ---- elf_load_seg ----

  function Offset(s: Segment): nat { s.va % PAGE_SIZE }

  /** Step 1: the pages that hold file contents, from byte `i` on. */
  function FileLoop(m: Space, s: Segment, i: nat): (bool, Space, nat)
    requires s.filesz <= |s.bin|
    decreases s.filesz - i
  {
    if i >= s.filesz then (true, m, i)
    else
      var r := MapPage(m, s.va + i, 0, s.writable, s.bin[i..i + Min(s.filesz - i, PAGE_SIZE)]);
      if !r.0 then (false, r.1, i) else FileLoop(r.1, s, i + PAGE_SIZE)
  }

  /** Step 2: empty pages up to the size in memory. */
  function ZeroLoop(m: Space, s: Segment, i: nat): (bool, Space)
    decreases s.memsz - i
  {
    if i >= s.memsz then (true, m)
    else
      var r := MapPage(m, s.va + i, 0, s.writable, []);
      if !r.0 then r else ZeroLoop(r.1, s, i + PAGE_SIZE)
  }

  /** Bytes of the file that go to a first page entered past its start. */
  function Head(s: Segment): nat { if Offset(s) == 0 then 0 else Min(s.filesz, PAGE_SIZE - Offset(s)) }

  function Load(m: Space, s: Segment): (bool, Space)
    requires s.filesz <= |s.bin|
  {
    var r := if Offset(s) == 0 then (true, m) else MapPage(m, s.va, Offset(s), s.writable, s.bin[..Head(s)]);
    if !r.0 then r
    else
      var f := FileLoop(r.1, s, Head(s));
      if !f.0 then (false, f.1) else ZeroLoop(f.1, s, f.2)
  }

  // ---- what a segment should look like ----

  function PageUp(a: nat): nat { (a + PAGE_SIZE - 1) / PAGE_SIZE }

  function FirstPage(s: Segment): nat { s.va / PAGE_SIZE }

  /** The page after the last one of the segment. */
  function EndPage(s: Segment): nat { PageUp(s.va + Max(s.filesz, s.memsz)) }

  function ByteAt(m: Space, a: nat): Byte {
    var p := a / PAGE_SIZE;
    if p in m.pages && a % PAGE_SIZE < |m.pages[p].data| then m.pages[p].data[a % PAGE_SIZE] else 0xff
  }

  /** The segment image: file bytes, then zeros up to the size in memory, all mapped as the header asks. */
  ghost predicate Image(m: Space, s: Segment)
    requires s.filesz <= |s.bin|
  {
    && (forall p: nat :: FirstPage(s) <= p < EndPage(s) ==> p in m.pages && m.pages[p].writable == s.writable)
    && (forall k: nat :: k < s.filesz ==> ByteAt(m, s.va + k) == s.bin[k])
    && (forall a: nat :: s.va + s.filesz <= a < s.va + s.memsz ==> ByteAt(m, a) == 0)
  }

  function Range(lo: nat, hi: nat): (r: seq<nat>)
    requires lo <= hi
    ensures |r| == hi - lo && forall i :: 0 <= i < |r| ==> r[i] == lo + i
  {
    seq(hi - lo, i requires 0 <= i => lo + i)
  }

  /** Each page of the segment was mapped once, in order, and no other page was touched. */
  ghost predicate Once(m: Space, m': Space, s: Segment) {
    && FirstPage(s) <= EndPage(s) && m'.log == m.log + Range(FirstPage(s), EndPage(s))
    && (forall p: nat :: !(FirstPage(s) <= p < EndPage(s)) ==>
          (p in m'.pages <==> p in m.pages) && (p in m.pages ==> m'.pages[p] == m.pages[p]))
  }

  // ---- page by page ----

  /** What page `p` of the segment should hold. */
  function Content(s: Segment, p: nat): (d: seq<Byte>)
    requires s.filesz <= |s.bin|
    ensures |d| == PAGE_SIZE
  {
    seq(PAGE_SIZE, j requires 0 <= j < PAGE_SIZE =>
      var a := PAGE_SIZE * p + j; if s.va <= a < s.va + s.filesz then s.bin[a - s.va] else 0)
  }

  /** m' is m with the segment's pages below `n` mapped. */
  ghost predicate Loaded(m: Space, m': Space, s: Segment, n: nat)
    requires s.filesz <= |s.bin|
  {
    && FirstPage(s) <= n && m'.log == m.log + Range(FirstPage(s), n)
    && m.budget == m'.budget + (n - FirstPage(s))
    && (forall p: nat :: FirstPage(s) <= p < n ==> p in m'.pages && m'.pages[p] == Page(Content(s, p), s.writable))
    && (forall p: nat :: !(FirstPage(s) <= p < n) ==>
          (p in m'.pages <==> p in m.pages) && (p in m.pages ==> m'.pages[p] == m.pages[p]))
  }

  lemma LoadedNext(m: Space, m1: Space, s: Segment, n: nat, va: nat, offset: nat, src: seq<Byte>)
    requires s.filesz <= |s.bin| && Loaded(m, m1, s, n) && m1.budget > 0
    requires va / PAGE_SIZE == n && offset + |src| <= PAGE_SIZE && Filled(offset, src) == Content(s, n)
    ensures Loaded(m, MapPage(m1, va, offset, s.writable, src).1, s, n + 1)
  {
    hide Filled, Content;
    var m2 := MapPage(m1, va, offset, s.writable, src).1;
    assert Range(FirstPage(s), n + 1) == Range(FirstPage(s), n) + [n];
    assert m2.log == m.log + Range(FirstPage(s), n + 1);
  }

  lemma HeadContent(s: Segment)
    requires s.filesz <= |s.bin| && Offset(s) != 0
    ensures Offset(s) + Head(s) <= PAGE_SIZE
    ensures Filled(Offset(s), s.bin[..Head(s)]) == Content(s, FirstPage(s))
  {
    assert s.va == PAGE_SIZE * FirstPage(s) + Offset(s);
  }

  lemma FileContent(s: Segment, n: nat, i: nat)
    requires s.filesz <= |s.bin| && s.va + i == PAGE_SIZE * n && i < s.filesz
    ensures Filled(0, s.bin[i..i + Min(s.filesz - i, PAGE_SIZE)]) == Content(s, n)
  {
  }

  lemma ZeroContent(s: Segment, n: nat, i: nat)
    requires s.filesz <= |s.bin| && s.va + i == PAGE_SIZE * n && i >= s.filesz
    ensures Filled(0, []) == Content(s, n)
  {
  }

  lemma PageOf(n: nat)
    ensures PAGE_SIZE * n / PAGE_SIZE == n
  {
  }

  lemma PageUpFacts(a: nat, n: nat)
    requires a <= PAGE_SIZE * n
    ensures PageUp(a) <= n
  {
  }

  lemma PageUpAbove(a: nat, n: nat)
    requires PAGE_SIZE * n < a
    ensures n < PageUp(a)
  {
  }

  lemma {:induction false} FileLoopLoads(m: Space, m1: Space, s: Segment, n: nat, i: nat)
    requires s.filesz <= |s.bin| && Loaded(m, m1, s, n) && s.va + i == PAGE_SIZE * n
    ensures var end := Max(n, PageUp(s.va + s.filesz));
      var r := FileLoop(m1, s, i);
      && (r.0 <==> m1.budget >= end - n)
      && (r.0 ==> Loaded(m, r.1, s, end) && s.va + r.2 == PAGE_SIZE * end)
    decreases s.filesz - i
  {
    hide Loaded, Filled, Content, PageUp;
    if i >= s.filesz {
      PageUpFacts(s.va + s.filesz, n);
    } else {
      PageUpAbove(s.va + s.filesz, n);
      if m1.budget > 0 {
        PageOf(n);
        FileContent(s, n, i);
        var src := s.bin[i..i + Min(s.filesz - i, PAGE_SIZE)];
        LoadedNext(m, m1, s, n, s.va + i, 0, src);
        FileLoopLoads(m, MapPage(m1, s.va + i, 0, s.writable, src).1, s, n + 1, i + PAGE_SIZE);
      }
    }
  }

  lemma {:induction false} ZeroLoopLoads(m: Space, m1: Space, s: Segment, n: nat, i: nat)
    requires s.filesz <= |s.bin| && Loaded(m, m1, s, n) && s.va + i == PAGE_SIZE * n && i >= s.filesz
    ensures var end := Max(n, PageUp(s.va + s.memsz));
      var r := ZeroLoop(m1, s, i);
      && (r.0 <==> m1.budget >= end - n)
      && (r.0 ==> Loaded(m, r.1, s, end))
    decreases s.memsz - i
  {
    hide Loaded, Filled, Content, PageUp;
    if i >= s.memsz {
      PageUpFacts(s.va + s.memsz, n);
    } else {
      PageUpAbove(s.va + s.memsz, n);
      if m1.budget > 0 {
        PageOf(n);
        ZeroContent(s, n, i);
        LoadedNext(m, m1, s, n, s.va + i, 0, []);
        ZeroLoopLoads(m, MapPage(m1, s.va + i, 0, s.writable, []).1, s, n + 1, i + PAGE_SIZE);
      }
    }
  }

  // ---- the exact condition ----

  /** The page-aligned cases, or file contents up to the first page end, or nothing to add. */
  predicate Regular(s: Segment) {
    Offset(s) == 0 || s.filesz >= PAGE_SIZE - Offset(s) || s.memsz <= s.filesz
  }

  lemma EndPageFacts(s: Segment)
    ensures EndPage(s) == Max(PageUp(s.va + s.filesz), PageUp(s.va + s.memsz))
    ensures FirstPage(s) <= EndPage(s)
    ensures Offset(s) != 0 ==> FirstPage(s) < PageUp(s.va + s.filesz)
    ensures Offset(s) != 0 && s.filesz < PAGE_SIZE - Offset(s) ==> PageUp(s.va + s.filesz) == FirstPage(s) + 1
    ensures Offset(s) == 0 ==> s.va == PAGE_SIZE * FirstPage(s)
    ensures s.va + (PAGE_SIZE - Offset(s)) == PAGE_SIZE * (FirstPage(s) + 1)
  {
  }

  /** A regular segment is loaded whole exactly when there is memory for its pages. */
  lemma RegularLoads(m: Space, s: Segment)
    requires WellFormed(s) && Regular(s)
    ensures var r := Load(m, s);
      && (r.0 <==> m.budget >= EndPage(s) - FirstPage(s))
      && (r.0 ==> Loaded(m, r.1, s, EndPage(s)))
  {
    EndPageFacts(s);
    var lo := FirstPage(s);
    assert Loaded(m, m, s, lo);
    hide Loaded, Filled, Content, PageUp;
    if Offset(s) == 0 {
      FileLoopLoads(m, m, s, lo, 0);
      var f := FileLoop(m, s, 0);
      if f.0 {
        FileLoopBudget(m, f.1, s, Max(lo, PageUp(s.va + s.filesz)));
        FileLoopEnds(m, s, 0);
        ZeroLoopLoads(m, f.1, s, Max(lo, PageUp(s.va + s.filesz)), f.2);
      }
    } else if m.budget > 0 {
      HeadContent(s);
      var m1 := MapPage(m, s.va, Offset(s), s.writable, s.bin[..Head(s)]).1;
      LoadedNext(m, m, s, lo, s.va, Offset(s), s.bin[..Head(s)]);
      if Head(s) == PAGE_SIZE - Offset(s) {
        FileLoopLoads(m, m1, s, lo + 1, Head(s));
        var f := FileLoop(m1, s, Head(s));
        if f.0 {
          FileLoopBudget(m, f.1, s, Max(lo + 1, PageUp(s.va + s.filesz)));
          FileLoopEnds(m1, s, Head(s));
          ZeroLoopLoads(m, f.1, s, Max(lo + 1, PageUp(s.va + s.filesz)), f.2);
        }
      } else {
        PageUpMono(s.va + s.memsz, s.va + s.filesz);
      }
    }
  }

  lemma FileLoopBudget(m: Space, m': Space, s: Segment, n: nat)
    requires s.filesz <= |s.bin| && Loaded(m, m', s, n)
    ensures m.budget == m'.budget + (n - FirstPage(s)) && n >= FirstPage(s)
  {
  }

  lemma {:induction false} FileLoopEnds(m: Space, s: Segment, i: nat)
    requires s.filesz <= |s.bin|
    ensures FileLoop(m, s, i).0 ==> FileLoop(m, s, i).2 >= s.filesz
    decreases s.filesz - i
  {
    if i < s.filesz && m.budget > 0 {
      var src := s.bin[i..i + Min(s.filesz - i, PAGE_SIZE)];
      FileLoopEnds(MapPage(m, s.va + i, 0, s.writable, src).1, s, i + PAGE_SIZE);
    }
  }

  lemma PageUpMono(a: nat, b: nat)
    requires a <= b
    ensures PageUp(a) <= PageUp(b)
  {
  }

  /** Pages mapped one by one with the right contents are the image, each mapped once. */
  lemma LoadedIsImage(m: Space, m': Space, s: Segment)
    requires s.filesz <= |s.bin| && Loaded(m, m', s, EndPage(s))
    ensures Image(m', s) && Once(m, m', s)
  {
    forall a: nat | s.va <= a < s.va + Max(s.filesz, s.memsz)
      ensures ByteAt(m', a) == if a < s.va + s.filesz then s.bin[a - s.va] else 0
    {
      ByteOfPage(s, a);
    }
  }

  lemma ByteOfPage(s: Segment, a: nat)
    requires s.filesz <= |s.bin| && s.va <= a < s.va + Max(s.filesz, s.memsz)
    ensures FirstPage(s) <= a / PAGE_SIZE < EndPage(s)
    ensures Content(s, a / PAGE_SIZE)[a % PAGE_SIZE] == if a < s.va + s.filesz then s.bin[a - s.va] else 0
  {
    assert a == PAGE_SIZE * (a / PAGE_SIZE) + a % PAGE_SIZE;
  }

  lemma {:induction false} ZeroLoopLogs(m: Space, s: Segment, i: nat)
    ensures m.log <= ZeroLoop(m, s, i).1.log
    decreases s.memsz - i
  {
    if i < s.memsz && m.budget > 0 {
      ZeroLoopLogs(MapPage(m, s.va + i, 0, s.writable, []).1, s, i + PAGE_SIZE);
    }
  }

  /** Otherwise the first page is mapped twice, the second time over the file's bytes. */
  lemma IrregularRepeats(m: Space, s: Segment)
    requires WellFormed(s) && !Regular(s) && Load(m, s).0
    ensures m.log + [FirstPage(s), FirstPage(s)] <= Load(m, s).1.log
  {
    var lo := FirstPage(s);
    var m1 := MapPage(m, s.va, Offset(s), s.writable, s.bin[..Head(s)]).1;
    assert Head(s) == s.filesz;
    assert s.va == PAGE_SIZE * lo + Offset(s);
    assert (s.va + s.filesz) / PAGE_SIZE == lo;
    var m2 := MapPage(m1, s.va + s.filesz, 0, s.writable, []).1;
    assert m2.log == m.log + [lo, lo];
    ZeroLoopLogs(m2, s, s.filesz + PAGE_SIZE);
  }

  /**
   A load that succeeds gives the segment image with each page mapped once if and only if the
   segment is regular.
   */
  lemma LoadExact(m: Space, s: Segment)
    requires WellFormed(s) && Load(m, s).0
    ensures (Image(Load(m, s).1, s) && Once(m, Load(m, s).1, s)) <==> Regular(s)
  {
    if Regular(s) {
      RegularLoads(m, s);
      LoadedIsImage(m, Load(m, s).1, s);
    } else {
      IrregularRepeats(m, s);
      NotOnce(m, Load(m, s).1, s);
    }
  }

  lemma NotOnce(m: Space, m': Space, s: Segment)
    requires m.log + [FirstPage(s), FirstPage(s)] <= m'.log
    ensures !Once(m, m', s)
  {
    var k := |m.log| + 1;
    assert m'.log[k] == (m.log + [FirstPage(s), FirstPage(s)])[k] == FirstPage(s);
  }

  /** An irregular segment within one page: its file byte is gone after a load that reports success. */
  lemma IrregularLosesBytes()
    ensures var s := Segment(0x400010, 1, 2, true, [7]);
      var m := Space(map[], [], 2);
      WellFormed(s) && Load(m, s).0 && ByteAt(Load(m, s).1, s.va) == 0
  {
    var s := Segment(0x400010, 1, 2, true, [7]);
    var m := Space(map[], [], 2);
    assert Offset(s) == 0x10 && Head(s) == 1;
    var m1 := MapPage(m, s.va, 0x10, true, s.bin[..1]).1;
    assert FileLoop(m1, s, 1) == (true, m1, 1);
    var m2 := MapPage(m1, s.va + 1, 0, true, []).1;
    assert ZeroLoop(m2, s, 1 + PAGE_SIZE) == (true, m2);
    assert ZeroLoop(m1, s, 1) == (true, m2);
    assert m2.pages[0x400].data == Filled(0, []);
  }

  // ---- as the loader runs ----

  class Loader {
    var pages: map<nat, Page>
    var log: seq<nat>
    var budget: nat

    ghost function Abs(): Space
      reads this
    {
      Space(pages, log, budget)
    }

    constructor (budget: nat)
      ensures Abs() == Space(map[], [], budget)
    {
      this.pages, this.log, this.budget := map[], [], budget;
    }

    /** load_icode_mapper */
    method MapOne(va: nat, offset: nat, writable: bool, src: seq<Byte>) returns (ok: bool)
      requires offset + |src| <= PAGE_SIZE
      modifies this
      ensures (ok, Abs()) == MapPage(old(Abs()), va, offset, writable, src)
    {
      if budget == 0 {
        return false;
      }
      budget := budget - 1;
      pages := pages[va / PAGE_SIZE := Page(Filled(offset, src), writable)];
      log := log + [va / PAGE_SIZE];
      return true;
    }

    /** elf_load_seg */
    method LoadSegment(s: Segment) returns (ok: bool)
      requires WellFormed(s)
      modifies this
      ensures (ok, Abs()) == Load(old(Abs()), s)
      ensures ok ==> ((Image(Abs(), s) && Once(old(Abs()), Abs(), s)) <==> Regular(s))
    {
      hide MapPage, Image, Once, Regular;
      ghost var m := Abs();
      if Load(m, s).0 { LoadExact(m, s); }
      var offset := s.va % PAGE_SIZE;
      if offset != 0 {
        ok := MapOne(s.va, offset, s.writable, s.bin[..Min(s.filesz, PAGE_SIZE - offset)]);
        if !ok {
          return;
        }
      }
      var i := if offset != 0 then Min(s.filesz, PAGE_SIZE - offset) else 0;
      ok, i := LoadFile(s, i);
      if ok { ok := LoadZeros(s, i); }
    }

    method LoadFile(s: Segment, start: nat) returns (ok: bool, i: nat)
      requires WellFormed(s)
      modifies this
      ensures (ok, Abs(), i) == FileLoop(old(Abs()), s, start)
    {
      hide MapPage;
      i := start;
      while i < s.filesz
        invariant FileLoop(old(Abs()), s, start) == FileLoop(Abs(), s, i)
        decreases s.filesz - i
      {
        ok := MapOne(s.va + i, 0, s.writable, s.bin[i..i + Min(s.filesz - i, PAGE_SIZE)]);
        if !ok {
          return;
        }
        i := i + PAGE_SIZE;
      }
      ok := true;
    }

    method LoadZeros(s: Segment, start: nat) returns (ok: bool)
      requires WellFormed(s)
      modifies this
      ensures (ok, Abs()) == ZeroLoop(old(Abs()), s, start)
    {
      hide MapPage;
      var i := start;
      while i < s.memsz
        invariant ZeroLoop(old(Abs()), s, start) == ZeroLoop(Abs(), s, i)
        decreases s.memsz - i
      {
        ok := MapOne(s.va + i, 0, s.writable, []);
        if !ok {
          return;
        }
        i := i + PAGE_SIZE;
      }
      return true;
    }
  }
}

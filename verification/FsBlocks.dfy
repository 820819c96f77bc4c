/**
 Block ownership in the file server (fs/fs.c): the bitmap allocator, direct and indirect
 block pointers, mapping and clearing of file blocks, and truncation.
 */
module FsBlocks {
  const NDIRECT: nat := 10
  const NINDIRECT: nat := 1024
  const BLOCK_SIZE: nat := 4096

  datatype Errno = NotFound | NoDisk | NoMem | Inval

  /** user_panic stops the server; the other errors are returned. */
  datatype Result = Ok(value: nat) | Err(error: Errno) | Panic

  datatype File = File(direct: seq<nat>, indirect: nat, size: nat)

  /**
   `free` is the bitmap, `index[b]` block b read as 1024 block numbers, `cached` the blocks
   mapped in the server's memory and `pages` the memory pages it can still map. Blocks below
   `reserved` hold the boot sector, the super block and the bitmap.
   */
  datatype Fs = Fs(
    reserved: nat,
    free: seq<bool>,
    files: map<nat, File>,
    index: seq<seq<nat>>,
    cached: set<nat>,
    pages: nat)

  /** The sizes as numbers: ten direct words, and an index block of 4-byte words. */
  lemma Constants()
    ensures NDIRECT == 10 && BLOCK_SIZE == 4096 && NINDIRECT == BLOCK_SIZE / 4
  {
  }

  /** The places that hold a block number. */
  datatype Slot = Direct(f: nat, i: nat) | Ind(f: nat) | Entry(f: nat, i: nat)

  function At(s: Fs, x: Slot): nat {
    if x.f !in s.files then 0
    else
      var file := s.files[x.f];
      match x
      case Direct(_, i) => if i < |file.direct| then file.direct[i] else 0
      case Ind(_) => file.indirect
      case Entry(_, i) =>
        if file.indirect != 0 && file.indirect < |s.index| && i < |s.index[file.indirect]|
        then s.index[file.indirect][i] else 0
  }

  /** The slot that block `n` of a file uses; the first ten words of an index block are unused. */
  function SlotOf(f: nat, n: nat): Slot { if n < NDIRECT then Direct(f, n) else Entry(f, n) }

  // ---- invariant ----

  ghost predicate Sized(s: Fs) {
    && 3 <= s.reserved <= |s.free| == |s.index|
    && (forall b :: 0 <= b < |s.index| ==> |s.index[b]| == NINDIRECT)
    && (forall f :: f in s.files ==> |s.files[f].direct| == NDIRECT)
    && (forall b :: 0 <= b < s.reserved ==> !s.free[b])
  }

  /** Every pointer leads to a data block that the bitmap marks in use. */
  ghost predicate InUse(s: Fs) {
    forall x: Slot :: At(s, x) != 0 ==> s.reserved <= At(s, x) < |s.free| && !s.free[At(s, x)]
  }

  /** No block is pointed to twice. */
  ghost predicate Unshared(s: Fs) {
    forall x: Slot, y: Slot :: At(s, x) != 0 && At(s, x) == At(s, y) ==> x == y
  }

  /** Every block in use is pointed to. */
  ghost predicate NoLeak(s: Fs) {
    forall b :: s.reserved <= b < |s.free| && !s.free[b] ==> exists x: Slot :: At(s, x) == b
  }

  ghost predicate LowUnused(s: Fs) {
    forall f: nat, i: nat :: i < NDIRECT ==> At(s, Entry(f, i)) == 0
  }

  ghost predicate Inv(s: Fs) {
    Sized(s) && InUse(s) && Unshared(s) && NoLeak(s) && LowUnused(s)
  }

  // ---- the allocator ----

  /** free_block, which ignores block 0 and blocks off the disk. */
  function FreeBlock(s: Fs, b: nat): Fs {
    if b == 0 || b >= |s.free| then s else s.(free := s.free[b := true])
  }

  /** The loop of alloc_block_num from block `b` on. */
  function FirstFree(free: seq<bool>, b: nat): (r: nat)
    requires b <= |free|
    ensures b <= r <= |free|
    ensures r < |free| ==> free[r]
    ensures forall i :: b <= i < r ==> !free[i]
    decreases |free| - b
  {
    if b == |free| || free[b] then b else FirstFree(free, b + 1)
  }

  function ZeroIndex(): (t: seq<nat>)
    ensures |t| == NINDIRECT && forall i :: 0 <= i < NINDIRECT ==> t[i] == 0
  {
    seq(NINDIRECT, _ => 0)
  }

  /** alloc_block: a page is mapped and cleared only if the block is not already cached. */
  function AllocBlock(s: Fs): (Result, Fs)
    requires 3 <= |s.free| == |s.index|
  {
    var b := FirstFree(s.free, 3);
    if b == |s.free| then (Err(NoDisk), s)
    else
      var s1 := s.(free := s.free[b := false]);
      if b in s.cached then (Ok(b), s1)
      else if s.pages == 0 then (Err(NoMem), FreeBlock(s1, b))
      else (Ok(b), s1.(cached := s.cached + {b}, pages := s.pages - 1, index := s.index[b := ZeroIndex()]))
  }

  /** read_block: panics on a block off the disk or marked free. */
  function ReadBlock(s: Fs, b: nat): (Result, Fs) {
    if b >= |s.free| || s.free[b] then (Panic, s)
    else if b in s.cached then (Ok(b), s)
    else if s.pages == 0 then (Err(NoMem), s)
    else (Ok(b), s.(cached := s.cached + {b}, pages := s.pages - 1))
  }

  /** read_block exactly: when it panics, when memory is short, and that it changes only the cache. */
  lemma ReadExact(s: Fs, r: Result, s': Fs, b: nat)
    requires (r, s') == ReadBlock(s, b)
    ensures r == Panic <==> b >= |s.free| || s.free[b]
    ensures r == Err(NoMem) <==> b < |s.free| && !s.free[b] && b !in s.cached && s.pages == 0
    ensures r == Panic || r == Err(NoMem) || r == Ok(b)
    ensures r.Ok? ==> b in s'.cached
    ensures s'.free == s.free && s'.files == s.files && s'.index == s.index && s'.reserved == s.reserved
  {
  }

  // ---- file blocks ----

  function SetIndirect(s: Fs, f: nat, b: nat): Fs
    requires f in s.files
  {
    s.(files := s.files[f := s.files[f].(indirect := b)])
  }

  /** file_block_walk; on success the slot of block `n` can be read and written. */
  function FileBlockWalk(s: Fs, f: nat, n: nat, alloc: bool): (Result, Fs)
    requires 3 <= |s.free| == |s.index| && f in s.files
  {
    if n < NDIRECT then (Ok(0), s)
    else if n >= NINDIRECT then (Err(Inval), s)
    else if s.files[f].indirect != 0 then ReadBlock(s, s.files[f].indirect)
    else if !alloc then (Err(NotFound), s)
    else
      var a := AllocBlock(s);
      if !a.0.Ok? then a
      else ReadBlock(SetIndirect(a.1, f, a.0.value), a.0.value)
  }

  function WriteSlot(s: Fs, x: Slot, b: nat): Fs
    requires x.f in s.files && !x.Ind?
    requires x.Direct? ==> x.i < |s.files[x.f].direct|
    requires x.Entry? ==>
               s.files[x.f].indirect < |s.index| && x.i < |s.index[s.files[x.f].indirect]|
  {
    match x
    case Direct(f, i) =>
      s.(files := s.files[f := s.files[f].(direct := s.files[f].direct[i := b])])
    case Entry(f, i) =>
      var t := s.files[f].indirect;
      var row: seq<nat> := s.index[t][i := b];
      s.(index := s.index[t := row])
  }

  predicate CanWrite(s: Fs, x: Slot) {
    && x.f in s.files && !x.Ind?
    && (x.Direct? ==> x.i < |s.files[x.f].direct|)
    && (x.Entry? ==> s.files[x.f].indirect < |s.index| && x.i < |s.index[s.files[x.f].indirect]|)
  }

  function FileMapBlock(s: Fs, f: nat, n: nat, alloc: bool): (Result, Fs)
    requires 3 <= |s.free| == |s.index| && f in s.files
  {
    var w := FileBlockWalk(s, f, n, alloc);
    if !w.0.Ok? then w
    else
      var x := SlotOf(f, n);
      if At(w.1, x) != 0 then (Ok(At(w.1, x)), w.1)
      else if !alloc then (Err(NotFound), w.1)
      else
        var a := AllocBlock(w.1);
        if !a.0.Ok? then a
        else if !CanWrite(a.1, x) then (Panic, a.1)
        else (a.0, WriteSlot(a.1, x, a.0.value))
  }

  function FileClearBlock(s: Fs, f: nat, n: nat): (Result, Fs)
    requires 3 <= |s.free| == |s.index| && f in s.files
  {
    var w := FileBlockWalk(s, f, n, false);
    if !w.0.Ok? then w
    else
      var x := SlotOf(f, n);
      if At(w.1, x) == 0 || !CanWrite(w.1, x) then (Ok(0), w.1)
      else (Ok(0), WriteSlot(FreeBlock(w.1, At(w.1, x)), x, 0))
  }

  /** The blocks that `size` bytes take, the last one perhaps in part. */
  function Blocks(size: nat): (n: nat)
    ensures size <= n * 4096 < size + 4096
  {
    (size + BLOCK_SIZE - 1) / BLOCK_SIZE
  }

  /** The clearing loop of file_truncate; panic_on turns any error into a stop. */
  function ClearRange(s: Fs, f: nat, lo: nat, hi: nat): (r: (bool, Fs))
    requires 3 <= |s.free| == |s.index| && f in s.files
    ensures |r.1.free| == |s.free| && |r.1.index| == |s.index| && r.1.files.Keys == s.files.Keys
    decreases hi - lo
  {
    if lo >= hi then (true, s)
    else
      var c := FileClearBlock(s, f, lo);
      if !c.0.Ok? then (false, c.1) else ClearRange(c.1, f, lo + 1, hi)
  }

  /** file_truncate: clear the blocks past the new size; at most ten left free the index block. */
  function FileTruncate(s: Fs, f: nat, newsize: nat): (bool, Fs)
    requires 3 <= |s.free| == |s.index| && f in s.files
  {
    var c := ClearRange(s, f, Blocks(newsize), Blocks(s.files[f].size));
    if !c.0 then c
    else
      var s1 := if Blocks(newsize) <= NDIRECT && c.1.files[f].indirect != 0
                then SetIndirect(FreeBlock(c.1, c.1.files[f].indirect), f, 0) else c.1;
      (true, s1.(files := s1.files[f := s1.files[f].(size := newsize)]))
  }

  // ---- frames of single writes ----

  ghost predicate SlotValid(s: Fs, x: Slot) {
    && x.f in s.files
    && match x
       case Direct(_, i) => i < NDIRECT
       case Ind(_) => true
       case Entry(_, i) => NDIRECT <= i < NINDIRECT && s.files[x.f].indirect != 0
  }

  /** No other file uses the index block of `f`. */
  ghost predicate OwnIndex(s: Fs, f: nat) {
    f in s.files && s.files[f].indirect != 0 ==>
      forall g :: g in s.files && s.files[g].indirect == s.files[f].indirect ==> g == f
  }

  lemma IndexIsOwn(s: Fs, f: nat)
    requires Inv(s)
    ensures OwnIndex(s, f)
  {
    if f in s.files && s.files[f].indirect != 0 {
      forall g | g in s.files && s.files[g].indirect == s.files[f].indirect
        ensures g == f
      {
        assert At(s, Ind(g)) == At(s, Ind(f));
      }
    }
  }

  /** Writing one slot changes what that slot holds and nothing else. */
  lemma WriteSlotAt(s: Fs, s': Fs, x: Slot, b: nat)
    requires Sized(s) && OwnIndex(s, x.f) && SlotValid(s, x) && !x.Ind? && CanWrite(s, x)
    requires s' == WriteSlot(s, x, b)
    ensures forall y: Slot :: At(s', y) == if y == x then b else At(s, y)
    ensures Sized(s') && s'.free == s.free
  {
  }

  lemma CanWriteSlot(s: Fs, f: nat, n: nat)
    requires Inv(s) && f in s.files && n < NINDIRECT && (n < NDIRECT || s.files[f].indirect != 0)
    ensures SlotValid(s, SlotOf(f, n)) && CanWrite(s, SlotOf(f, n)) && !SlotOf(f, n).Ind?
  {
    assert At(s, Ind(f)) == s.files[f].indirect;
  }

  /** A live index block is on the disk and in use, so reading it never panics. */
  lemma IndirectReadable(s: Fs, f: nat)
    requires Inv(s) && f in s.files && s.files[f].indirect != 0
    ensures !ReadBlock(s, s.files[f].indirect).0.Panic?
  {
    assert At(s, Ind(f)) == s.files[f].indirect;
  }

  /** Only bookkeeping of the cache differs. */
  ghost predicate SameDisk(s: Fs, s': Fs) {
    s'.reserved == s.reserved && s'.free == s.free && s'.files == s.files && s'.index == s.index
  }

  lemma SameDiskInv(s: Fs, s': Fs)
    requires SameDisk(s, s')
    ensures forall x: Slot :: At(s', x) == At(s, x)
    ensures Inv(s) <==> Inv(s')
  {
    assert forall x: Slot :: At(s', x) == At(s, x);
  }

  // ---- allocation ----

  /** s' is s with one more block in use, held by slot `x` which was empty. */
  ghost predicate Gained(s: Fs, s': Fs, x: Slot, b: nat) {
    && Sized(s') && s'.reserved == s.reserved && |s'.free| == |s.free|
    && s.reserved <= b < |s.free| && s.free[b] && s'.free == s.free[b := false]
    && At(s, x) == 0
    && (forall y: Slot :: At(s', y) == if y == x then b else At(s, y))
  }

  lemma GainedInv(s: Fs, s': Fs, x: Slot, b: nat)
    requires Inv(s) && Gained(s, s', x, b) && (x.Entry? ==> x.i >= NDIRECT)
    ensures Inv(s')
  {
    forall b' | s'.reserved <= b' < |s'.free| && !s'.free[b']
      ensures exists y: Slot :: At(s', y) == b'
    {
      if b' == b {
        assert At(s', x) == b;
      } else {
        var y: Slot :| At(s, y) == b';
        assert At(s', y) == b';
      }
    }
    forall y: Slot, z: Slot | At(s', y) != 0 && At(s', y) == At(s', z)
      ensures y == z
    {
      assert At(s, y) != b && At(s, z) != b;
    }
  }

  /** s' is s with the block in slot `x` released. */
  ghost predicate Lost(s: Fs, s': Fs, x: Slot) {
    && Sized(s') && s'.reserved == s.reserved && |s'.free| == |s.free|
    && At(s, x) != 0 && s.reserved <= At(s, x) < |s.free| && s'.free == s.free[At(s, x) := true]
    && (forall y: Slot :: At(s', y) == if y == x then 0 else At(s, y))
  }

  lemma LostInv(s: Fs, s': Fs, x: Slot)
    requires Inv(s) && Lost(s, s', x)
    ensures Inv(s')
  {
    forall b | s'.reserved <= b < |s'.free| && !s'.free[b]
      ensures exists y: Slot :: At(s', y) == b
    {
      var y: Slot :| At(s, y) == b;
      assert At(s', y) == b;
    }
  }

  /** Block `b` is the lowest free one. */
  predicate Lowest(free: seq<bool>, b: nat) { b < |free| && free[b] && forall i :: 0 <= i < b ==> !free[i] }

  /** What alloc_block has to answer: the lowest free block, if it is cached or a page is left for it. */
  ghost predicate Allocated(free: seq<bool>, cached: set<nat>, pages: nat, r: Result) {
    if forall b :: 0 <= b < |free| ==> !free[b] then r == Err(NoDisk)
    else exists b: nat :: Lowest(free, b) && r == (if b in cached || pages > 0 then Ok(b) else Err(NoMem))
  }

  lemma AllocResult(s: Fs, r: Result, s': Fs)
    requires Sized(s) && (r, s') == AllocBlock(s)
    ensures Allocated(s.free, s.cached, s.pages, r)
    ensures r.Ok? ==> s'.cached == s.cached + {r.value} && s'.pages == s.pages - (if r.value in s.cached then 0 else 1)
    ensures !r.Ok? ==> s'.free == s.free && s'.cached == s.cached && s'.pages == s.pages
  {
    var b := FirstFree(s.free, 3);
    if b < |s.free| {
      assert Lowest(s.free, b);
      if r.Err? { assert s'.free == s.free; }
    }
  }

  lemma AllocFacts(s: Fs, r: Result, s': Fs)
    requires Inv(s) && (r, s') == AllocBlock(s)
    ensures !r.Panic?
    ensures r.Ok? ==> s.reserved <= r.value < |s.free| && s.free[r.value] && s'.free == s.free[r.value := false]
    ensures r.Err? ==> SameDisk(s, s') && s'.cached == s.cached
    ensures r == Err(NoDisk) <==> forall b :: 0 <= b < |s.free| ==> !s.free[b]
    ensures s'.files == s.files && s'.reserved == s.reserved && |s'.index| == |s.index|
    ensures r.Ok? ==> r.value in s'.cached
    ensures r.Ok? ==> forall b :: 0 <= b < |s.index| && b != r.value ==> s'.index[b] == s.index[b]
    ensures r.Ok? ==> |s'.index[r.value]| == NINDIRECT
    ensures r.Ok? ==> s'.index[r.value] == if r.value in s.cached then s.index[r.value] else ZeroIndex()
    ensures forall x: Slot :: At(s', x) == At(s, x)
  {
    var b := FirstFree(s.free, 3);
    if b < |s.free| {
      forall x: Slot
        ensures At(s', x) == At(s, x)
      {
        assert x.f in s.files ==> At(s, Ind(x.f)) == s.files[x.f].indirect;
      }
      if r.Err? { assert s'.free == s.free; }
    }
  }

  // ---- file_block_walk and file_map_block ----

  /** The call will give the file its index block. */
  predicate TakesIndex(s: Fs, f: nat, n: nat, alloc: bool)
    requires 3 <= |s.free| == |s.index| && f in s.files
  {
    alloc && NDIRECT <= n < NINDIRECT && s.files[f].indirect == 0 && AllocBlock(s).0.Ok?
  }

  /** The block the allocator would hand out next reads as zeros: uncached, or cached and clear. */
  ghost predicate NextReadsZero(s: Fs)
    requires 3 <= |s.free| == |s.index|
  {
    var b := FirstFree(s.free, 3);
    b < |s.free| && b in s.cached ==> forall i :: 0 <= i < |s.index[b]| ==> s.index[b][i] == 0
  }

  lemma WalkNewIndex(s: Fs, r: Result, s': Fs, f: nat, n: nat)
    requires Inv(s) && f in s.files && TakesIndex(s, f, n, true)
    requires (r, s') == FileBlockWalk(s, f, n, true)
    ensures r.Ok? && Sized(s') && s'.reserved == s.reserved
    ensures var b := FirstFree(s.free, 3);
      && s.reserved <= b < |s.free| && s.free[b] && s'.free == s.free[b := false]
      && (forall y: Slot :: At(s', y) ==
            if y == Ind(f) then b
            else if y.Entry? && y.f == f then (if y.i < NINDIRECT then s'.index[b][y.i] else 0)
            else At(s, y))
      && (NextReadsZero(s) <==> forall i :: 0 <= i < NINDIRECT ==> s'.index[b][i] == 0)
    ensures s'.files == s.files[f := s.files[f].(indirect := FirstFree(s.free, 3))]
  {
    var a := AllocBlock(s);
    AllocFacts(s, a.0, a.1);
    var b := a.0.value;
    forall y: Slot
      ensures At(s', y) ==
        if y == Ind(f) then b
        else if y.Entry? && y.f == f then (if y.i < NINDIRECT then s'.index[b][y.i] else 0)
        else At(s, y)
    {
      assert At(s, y) == At(a.1, y);
    }
  }

  /** A stale index block makes two slots hold one block, or a slot hold a free one. */
  lemma StaleIndexShares(s: Fs, s': Fs, f: nat, b: nat, newer: set<nat>, i: nat)
    requires Inv(s) && f in s.files && s.files[f].indirect == 0 && At(s', Entry(f, i)) != 0
    requires At(s', Ind(f)) == b && b < |s.free| == |s'.free|
    requires s'.reserved == s.reserved
    requires forall c :: 0 <= c < |s.free| && c != b && c !in newer ==> s'.free[c] == s.free[c]
    requires forall y: Slot :: At(s, y) != 0 ==> At(s', y) == At(s, y)
    requires forall c :: c in newer ==> exists y: Slot :: At(s', y) == c && y != Entry(f, i)
    ensures !Inv(s')
  {
    assert At(s, Entry(f, i)) == 0;
  }

  /**
   file_block_walk keeps the invariant exactly when an index block it takes reads as zeros.
   */
  lemma WalkKeeps(s: Fs, r: Result, s': Fs, f: nat, n: nat, alloc: bool)
    requires Inv(s) && f in s.files && (r, s') == FileBlockWalk(s, f, n, alloc)
    ensures !r.Panic?
    ensures Inv(s') <==> (TakesIndex(s, f, n, alloc) ==> NextReadsZero(s))
    ensures !TakesIndex(s, f, n, alloc) ==> SameDisk(s, s')
    ensures r.Ok? ==> n < NINDIRECT && (n < NDIRECT || s'.files[f].indirect != 0)
    ensures r == Err(Inval) <==> n >= NINDIRECT
    ensures r == Err(NotFound) <==> !alloc && NDIRECT <= n < NINDIRECT && s.files[f].indirect == 0
  {
    if TakesIndex(s, f, n, alloc) {
      WalkNewIndex(s, r, s', f, n);
      var b := FirstFree(s.free, 3);
      if NextReadsZero(s) {
        GainedInv(s, s', Ind(f), b);
      } else {
        var i :| 0 <= i < NINDIRECT && s'.index[b][i] != 0;
        assert At(s', Entry(f, i)) != 0;
        StaleIndexShares(s, s', f, b, {}, i);
      }
    } else {
      if n >= NDIRECT && n < NINDIRECT && s.files[f].indirect != 0 { IndirectReadable(s, f); }
      if alloc && NDIRECT <= n < NINDIRECT && s.files[f].indirect == 0 {
        AllocFacts(s, AllocBlock(s).0, AllocBlock(s).1);
      }
      SameDiskInv(s, s');
    }
  }

  /** file_map_block with the walk already done: at most one slot changes, from empty. */
  lemma MapAfterWalk(s: Fs, f: nat, n: nat, r: Result, s': Fs)
    requires Inv(s) && f in s.files && n < NINDIRECT && (n < NDIRECT || s.files[f].indirect != 0)
    requires At(s, SlotOf(f, n)) == 0
    requires var a := AllocBlock(s);
      (r, s') == if !a.0.Ok? then a
                 else if !CanWrite(a.1, SlotOf(f, n)) then (Panic, a.1)
                 else (a.0, WriteSlot(a.1, SlotOf(f, n), a.0.value))
    ensures !r.Panic? && Inv(s')
    ensures r.Ok? ==> Gained(s, s', SlotOf(f, n), r.value)
    ensures !r.Ok? ==> SameDisk(s, s')
  {
    var x := SlotOf(f, n);
    var a := AllocBlock(s);
    AllocFacts(s, a.0, a.1);
    if a.0.Ok? {
      CanWriteSlot(s, f, n);
      MapWrite(s, a.1, f, n, a.0.value);
      GainedInv(s, s', x, a.0.value);
    } else {
      SameDiskInv(s, s');
    }
  }

  lemma MapWrite(s: Fs, s1: Fs, f: nat, n: nat, b: nat)
    requires Inv(s) && f in s.files && n < NINDIRECT && (n < NDIRECT || s.files[f].indirect != 0)
    requires (Ok(b), s1) == AllocBlock(s)
    ensures CanWrite(s1, SlotOf(f, n))
    ensures Sized(WriteSlot(s1, SlotOf(f, n), b)) && WriteSlot(s1, SlotOf(f, n), b).free == s1.free
    ensures forall y: Slot :: At(WriteSlot(s1, SlotOf(f, n), b), y) == if y == SlotOf(f, n) then b else At(s, y)
  {
    AllocFacts(s, Ok(b), s1);
    CanWriteSlot(s, f, n);
    IndexIsOwn(s, f);
    AllocSized(s, s1);
    WriteSlotAt(s1, WriteSlot(s1, SlotOf(f, n), b), SlotOf(f, n), b);
  }

  lemma AllocSized(s: Fs, s1: Fs)
    requires Inv(s) && s1 == AllocBlock(s).1
    ensures Sized(s1)
  {
    AllocFacts(s, AllocBlock(s).0, s1);
  }

  /** What file_map_block leaves of the slots; the index pointer may go from empty to set. */
  ghost predicate Extended(s: Fs, s': Fs, f: nat, n: nat) {
    && (forall y: Slot :: At(s, y) != 0 ==> At(s', y) == At(s, y))
    && (forall y: Slot :: y != SlotOf(f, n) && y != Ind(f) ==> At(s', y) == At(s, y))
  }

  lemma MapNoIndex(s: Fs, r: Result, s': Fs, f: nat, n: nat, alloc: bool)
    requires Inv(s) && f in s.files && (r, s') == FileMapBlock(s, f, n, alloc)
    requires !TakesIndex(s, f, n, alloc)
    ensures Inv(s') && !r.Panic? && Extended(s, s', f, n)
    ensures r.Ok? ==> At(s', SlotOf(f, n)) == r.value != 0
    ensures !alloc ==> SameDisk(s, s')
  {
    var w := FileBlockWalk(s, f, n, alloc);
    WalkKeeps(s, w.0, w.1, f, n, alloc);
    SameDiskInv(s, w.1);
    if w.0.Ok? && At(w.1, SlotOf(f, n)) == 0 && alloc {
      MapAfterWalk(w.1, f, n, r, s');
      if !r.Ok? { SameDiskInv(w.1, s'); }
    }
  }

  lemma MapWithIndex(s: Fs, r: Result, s': Fs, f: nat, n: nat)
    requires Inv(s) && f in s.files && (r, s') == FileMapBlock(s, f, n, true)
    requires TakesIndex(s, f, n, true) && NextReadsZero(s)
    ensures Inv(s') && !r.Panic? && Extended(s, s', f, n)
    ensures r.Ok? ==> At(s', SlotOf(f, n)) == r.value != 0
  {
    var w := FileBlockWalk(s, f, n, true);
    WalkKeeps(s, w.0, w.1, f, n, true);
    WalkNewIndex(s, w.0, w.1, f, n);
    assert At(w.1, SlotOf(f, n)) == 0;
    assert forall i: nat :: At(s, Entry(f, i)) == 0;
    MapAfterWalk(w.1, f, n, r, s');
    if !r.Ok? { SameDiskInv(w.1, s'); }
  }

  /**
   file_map_block: on success the slot of block `n` holds the returned block, which is on the
   disk and in use; every slot that held a block still holds it; reading a free block is
   impossible. The invariant holds afterwards exactly when an index block taken on the way
   reads as zeros.
   */
  lemma MapBlockKeeps(s: Fs, r: Result, s': Fs, f: nat, n: nat, alloc: bool)
    requires Inv(s) && f in s.files && (r, s') == FileMapBlock(s, f, n, alloc)
    ensures Inv(s') <==> (TakesIndex(s, f, n, alloc) ==> NextReadsZero(s))
    ensures Inv(s') ==> !r.Panic? && Extended(s, s', f, n)
    ensures Inv(s') && r.Ok? ==> At(s', SlotOf(f, n)) == r.value != 0
    ensures !alloc ==> SameDisk(s, s')
  {
    hide InUse;
    hide Unshared;
    hide NoLeak;
    hide LowUnused;
    hide Extended;
    hide FileMapBlock;
    if TakesIndex(s, f, n, alloc) {
      if NextReadsZero(s) {
        MapWithIndex(s, r, s', f, n);
      } else {
        MapStale(s, FileBlockWalk(s, f, n, true).1, r, s', f, n);
      }
    } else {
      MapNoIndex(s, r, s', f, n, alloc);
    }
  }

  /** The lowest free block is one only. */
  lemma LowestIs(free: seq<bool>, b: nat, c: nat)
    requires Lowest(free, b) && Lowest(free, c)
    ensures b == c
  {
  }

  /**
   What file_map_block answers, for a block that is there, or that needs no index block: the block
   in the slot; "not found" if and only if it is empty and alloc is not set; or what the allocator
   answers, and then the slot holds a block that was free. An index block that cannot be brought
   into memory comes first.
   */
  lemma MapResult(s: Fs, r: Result, s': Fs, f: nat, n: nat, alloc: bool)
    requires Inv(s) && f in s.files && (r, s') == FileMapBlock(s, f, n, alloc)
    requires !(alloc && NDIRECT <= n < NINDIRECT && s.files[f].indirect == 0)
    ensures r == Err(Inval) <==> n >= NINDIRECT
    ensures r == Err(NotFound) <==> !alloc && n < NINDIRECT && At(s, SlotOf(f, n)) == 0 && Walkable(s, f, n)
    ensures n < NINDIRECT && !Walkable(s, f, n) ==> r == Err(NoMem)
    ensures n < NINDIRECT && Walkable(s, f, n) && At(s, SlotOf(f, n)) != 0 ==> r == Ok(At(s, SlotOf(f, n)))
    ensures n < NINDIRECT && Walkable(s, f, n) && At(s, SlotOf(f, n)) == 0 && alloc ==>
              Allocated(s.free, s.cached, PagesLeft(s, f, n), r)
    ensures r.Ok? && At(s, SlotOf(f, n)) == 0 ==> Gained(s, s', SlotOf(f, n), r.value)
  {
    var w := FileBlockWalk(s, f, n, alloc);
    WalkKeeps(s, w.0, w.1, f, n, alloc);
    SameDiskInv(s, w.1);
    if n < NINDIRECT && NDIRECT <= n && s.files[f].indirect != 0 { IndirectReadable(s, f); }
    if w.0.Ok? && At(w.1, SlotOf(f, n)) == 0 && alloc {
      MapAfterWalk(w.1, f, n, r, s');
      AllocResult(w.1, AllocBlock(w.1).0, AllocBlock(w.1).1);
      CanWriteSlot(w.1, f, n);
      if AllocBlock(w.1).0.Ok? { MapWrite(w.1, AllocBlock(w.1).1, f, n, AllocBlock(w.1).0.value); }
      IndexNotFree(s, f);
    }
  }

  /** The index block of block `n`, if it has one, is in memory or can be brought there. */
  predicate Walkable(s: Fs, f: nat, n: nat)
    requires f in s.files
  {
    n < NDIRECT || s.files[f].indirect == 0 || s.files[f].indirect in s.cached || s.pages > 0
  }

  /** The pages left once it is there. */
  function PagesLeft(s: Fs, f: nat, n: nat): nat
    requires f in s.files && Walkable(s, f, n)
  {
    if n < NDIRECT || s.files[f].indirect == 0 || s.files[f].indirect in s.cached then s.pages else s.pages - 1
  }

  lemma IndexNotFree(s: Fs, f: nat)
    requires Inv(s) && f in s.files
    ensures s.files[f].indirect < |s.free| && !s.free[s.files[f].indirect]
  {
    assert At(s, Ind(f)) == s.files[f].indirect;
  }

  /**
   The same where the file gets its index block first: the answer is the allocator's for the index
   block if that fails, and otherwise its answer for a second block with what is then left.
   */
  lemma MapResultIndex(s: Fs, r: Result, s': Fs, f: nat, n: nat)
    requires Inv(s) && f in s.files && (r, s') == FileMapBlock(s, f, n, true) && NextReadsZero(s)
    requires NDIRECT <= n < NINDIRECT && s.files[f].indirect == 0
    ensures (forall b :: 0 <= b < |s.free| ==> !s.free[b]) ==> r == Err(NoDisk)
    ensures forall b: nat :: Lowest(s.free, b) ==>
              if b in s.cached || s.pages > 0
              then Allocated(s.free[b := false], s.cached + {b}, s.pages - (if b in s.cached then 0 else 1), r)
              else r == Err(NoMem)
    ensures r.Ok? ==> exists b: nat ::
              && Lowest(s.free, b) && At(s', Ind(f)) == b && s.free[r.value] && r.value != b
              && At(s', SlotOf(f, n)) == r.value && s'.free == s.free[b := false][r.value := false]
  {
    var a := AllocBlock(s);
    AllocResult(s, a.0, a.1);
    hide InUse, Unshared, NoLeak, LowUnused;
    var w := FileBlockWalk(s, f, n, true);
    if TakesIndex(s, f, n, true) {
      WalkKeeps(s, w.0, w.1, f, n, true);
      WalkNewIndex(s, w.0, w.1, f, n);
      MapAfterWalk(w.1, f, n, r, s');
      AllocResult(w.1, AllocBlock(w.1).0, AllocBlock(w.1).1);
      CanWriteSlot(w.1, f, n);
      if AllocBlock(w.1).0.Ok? { MapWrite(w.1, AllocBlock(w.1).1, f, n, AllocBlock(w.1).0.value); }
      assert Lowest(s.free, a.0.value);
    }
    forall b: nat | Lowest(s.free, b)
      ensures !a.0.Ok? || a.0.value == b
    {
      if a.0.Ok? { LowestIs(s.free, b, a.0.value); }
    }
  }

  lemma MapStale(s: Fs, s1: Fs, r: Result, s': Fs, f: nat, n: nat)
    requires Inv(s) && f in s.files && TakesIndex(s, f, n, true) && !NextReadsZero(s)
    requires s1 == FileBlockWalk(s, f, n, true).1 && (r, s') == FileMapBlock(s, f, n, true)
    ensures !Inv(s')
  {
    WalkNewIndex(s, FileBlockWalk(s, f, n, true).0, s1, f, n);
    var b := FirstFree(s.free, 3);
    var x := SlotOf(f, n);
    var i: nat :| i < NINDIRECT && s1.index[b][i] != 0;
    assert At(s1, Entry(f, i)) != 0;
    if At(s1, x) != 0 {
      StaleIndexShares(s, s', f, b, {}, i);
    } else {
      var a := AllocBlock(s1);
      AllocKeepsIndex(s1, a.0, a.1, b);
      if a.0.Ok? {
        var d := a.0.value;
        assert At(s', x) == d && At(s', Entry(f, i)) == At(s1, Entry(f, i));
        StaleWrite(s, s1, a.1, s', f, n, d);
        StaleIndexShares(s, s', f, b, {d}, i);
      } else {
        StaleIndexShares(s, s', f, b, {}, i);
      }
    }
  }

  lemma AllocKeepsIndex(s: Fs, r: Result, s': Fs, b: nat)
    requires Sized(s) && b < |s.free| && !s.free[b] && (r, s') == AllocBlock(s)
    ensures s'.index[b] == s.index[b] && s'.files == s.files && |s'.free| == |s.free| && |s'.index| == |s.index|
    ensures !r.Panic? && s'.reserved == s.reserved
    ensures r.Ok? ==> r.value < |s.free| && s.free[r.value] && r.value != b && s'.free == s.free[r.value := false]
    ensures !r.Ok? ==> s'.free == s.free && s'.index == s.index
    ensures forall c :: 0 <= c < |s.free| && !s.free[c] ==> s'.index[c] == s.index[c]
    ensures forall c :: 0 <= c < |s.index| ==> |s'.index[c]| == NINDIRECT
  {
  }

  lemma StaleWrite(s: Fs, s1: Fs, s2: Fs, s': Fs, f: nat, n: nat, d: nat)
    requires Inv(s) && f in s.files && TakesIndex(s, f, n, true)
    requires s1 == FileBlockWalk(s, f, n, true).1 && (Ok(d), s2) == AllocBlock(s1)
    requires At(s1, SlotOf(f, n)) == 0 && CanWrite(s2, SlotOf(f, n)) && s' == WriteSlot(s2, SlotOf(f, n), d)
    ensures forall y: Slot :: At(s, y) != 0 ==> At(s', y) == At(s, y)
  {
    var b := FirstFree(s.free, 3);
    WalkNewIndex(s, FileBlockWalk(s, f, n, true).0, s1, f, n);
    AllocKeepsIndex(s1, Ok(d), s2, b);
    forall y: Slot | At(s, y) != 0
      ensures At(s', y) == At(s, y)
    {
      assert At(s1, y) == At(s, y);
      if y.Entry? { assert At(s, Ind(y.f)) != 0; }
    }
  }

  // ---- file_clear_block and file_truncate ----

  /** The index block of `f`, if any, can be brought into memory. */
  predicate Readable(s: Fs, f: nat)
    requires f in s.files
  {
    s.files[f].indirect in s.cached || s.pages > 0
  }

  predicate Clearable(s: Fs, f: nat, n: nat)
    requires f in s.files
  {
    n < NDIRECT || (n < NINDIRECT && s.files[f].indirect != 0 && Readable(s, f))
  }

  lemma ClearBlockKeeps(s: Fs, r: Result, s': Fs, f: nat, n: nat)
    requires Inv(s) && f in s.files && (r, s') == FileClearBlock(s, f, n)
    ensures Inv(s') && !r.Panic? && (r.Ok? <==> Clearable(s, f, n))
    ensures !r.Ok? ==> SameDisk(s, s')
    ensures r.Ok? ==> forall y: Slot :: At(s', y) == if y == SlotOf(f, n) then 0 else At(s, y)
    ensures r.Ok? ==> forall b :: 0 <= b < |s.free| ==>
              (s'.free[b] <==> s.free[b] || (b != 0 && b == At(s, SlotOf(f, n))))
    ensures f in s'.files && s'.files[f].indirect == s.files[f].indirect && s'.files[f].size == s.files[f].size
    ensures s'.files.Keys == s.files.Keys && s'.reserved == s.reserved && |s'.free| == |s.free|
    ensures r.Ok? && n >= NDIRECT ==> s.files[f].indirect in s'.cached
    ensures n < NDIRECT ==> s'.pages == s.pages && s'.cached == s.cached
  {
    hide NoLeak;
    hide InUse;
    hide Unshared;
    hide LowUnused;
    var w := FileBlockWalk(s, f, n, false);
    WalkKeeps(s, w.0, w.1, f, n, false);
    SameDiskInv(s, w.1);
    if w.0.Ok? {
      CanWriteSlot(w.1, f, n);
      if At(w.1, SlotOf(f, n)) != 0 { ReleaseSlot(w.1, s', SlotOf(f, n)); }
    }
  }

  lemma ReleaseSlot(s: Fs, s': Fs, x: Slot)
    requires Inv(s) && SlotValid(s, x) && !x.Ind? && CanWrite(s, x) && At(s, x) != 0
    requires CanWrite(FreeBlock(s, At(s, x)), x)
    requires s' == WriteSlot(FreeBlock(s, At(s, x)), x, 0)
    ensures Inv(s')
    ensures forall y: Slot :: At(s', y) == if y == x then 0 else At(s, y)
    ensures At(s, x) < |s.free| && s'.free == s.free[At(s, x) := true]
  {
    IndexIsOwn(s, x.f);
    var s1 := FreeBlock(s, At(s, x));
    assert forall y: Slot :: At(s1, y) == At(s, y);
    WriteSlotAt(s1, s', x, 0);
    LostInv(s, s', x);
  }

  ghost predicate InRangeSlot(f: nat, lo: nat, hi: nat, y: Slot) {
    y.f == f && ((y.Direct? && y.i < NDIRECT && lo <= y.i < hi) || (y.Entry? && NDIRECT <= y.i && lo <= y.i < hi))
  }

  ghost predicate HeldIn(s: Fs, f: nat, lo: nat, hi: nat, b: nat) {
    exists n: nat :: lo <= n < hi && At(s, SlotOf(f, n)) == b
  }

  /** The clearing loop succeeds, empties exactly its slots and frees exactly their blocks. */
  lemma {:induction false} ClearRangeKeeps(s: Fs, ok: bool, s': Fs, f: nat, lo: nat, hi: nat)
    requires Inv(s) && f in s.files && (ok, s') == ClearRange(s, f, lo, hi)
    ensures Inv(s')
    ensures ok <==> lo >= hi || hi <= NDIRECT || (hi <= NINDIRECT && s.files[f].indirect != 0 && Readable(s, f))
    ensures ok ==> forall y: Slot :: At(s', y) == if InRangeSlot(f, lo, hi, y) then 0 else At(s, y)
    ensures ok ==> forall b :: 0 < b < |s.free| ==> (s'.free[b] <==> s.free[b] || HeldIn(s, f, lo, hi, b))
    ensures f in s'.files && s'.files[f].indirect == s.files[f].indirect && s'.files[f].size == s.files[f].size
    ensures s'.files.Keys == s.files.Keys && s'.reserved == s.reserved && |s'.free| == |s.free|
    decreases hi - lo
  {
    hide NoLeak;
    hide InUse;
    hide Unshared;
    hide LowUnused;
    hide At;
    hide FileClearBlock;
    if lo < hi {
      var c := FileClearBlock(s, f, lo);
      ClearBlockKeeps(s, c.0, c.1, f, lo);
      if c.0.Ok? {
        ClearRangeKeeps(c.1, ok, s', f, lo + 1, hi);
        ClearRangeStep(s, c.1, f, lo, hi);
      }
    }
  }

  lemma ClearRangeStep(s: Fs, s1: Fs, f: nat, lo: nat, hi: nat)
    requires lo < hi
    requires forall y: Slot :: At(s1, y) == if y == SlotOf(f, lo) then 0 else At(s, y)
    ensures forall y: Slot :: (if InRangeSlot(f, lo + 1, hi, y) then 0 else At(s1, y)) ==
                              (if InRangeSlot(f, lo, hi, y) then 0 else At(s, y))
    ensures forall b: nat :: b > 0 ==>
              (HeldIn(s, f, lo, hi, b) <==> At(s, SlotOf(f, lo)) == b || HeldIn(s1, f, lo + 1, hi, b))
  {
    forall b: nat | b > 0
      ensures HeldIn(s, f, lo, hi, b) <==> At(s, SlotOf(f, lo)) == b || HeldIn(s1, f, lo + 1, hi, b)
    {
      if HeldIn(s, f, lo, hi, b) && At(s, SlotOf(f, lo)) != b {
        var n: nat :| lo <= n < hi && At(s, SlotOf(f, n)) == b;
        assert At(s1, SlotOf(f, n)) == b;
      }
      if HeldIn(s1, f, lo + 1, hi, b) {
        var n: nat :| lo + 1 <= n < hi && At(s1, SlotOf(f, n)) == b;
        assert At(s, SlotOf(f, n)) == b;
      }
    }
  }

  /** No block hangs in the index table past the old size when the table is about to go. */
  ghost predicate NoTail(s: Fs, f: nat, newsize: nat)
    requires f in s.files
  {
    Blocks(newsize) <= NDIRECT ==>
      forall i: nat :: Blocks(s.files[f].size) <= i ==> At(s, Entry(f, i)) == 0
  }

  /** Slot contents after a successful file_truncate. */
  function TruncatedAt(s: Fs, f: nat, newsize: nat, y: Slot): nat
    requires f in s.files
  {
    var lo, hi := Blocks(newsize), Blocks(s.files[f].size);
    if y.f != f then At(s, y)
    else match y
      case Direct(_, i) => if lo <= i < hi then 0 else At(s, y)
      case Ind(_) => if lo <= NDIRECT then 0 else At(s, y)
      case Entry(_, i) => if lo <= NDIRECT || lo <= i < hi then 0 else At(s, y)
  }

  lemma TruncateSlots(s: Fs, s': Fs, f: nat, newsize: nat)
    requires Inv(s) && f in s.files && (true, s') == FileTruncate(s, f, newsize)
    ensures Sized(s') && s'.reserved == s.reserved && |s'.free| == |s.free|
    ensures forall y: Slot :: At(s', y) == TruncatedAt(s, f, newsize, y)
    ensures forall b :: 0 < b < |s.free| ==>
              (s'.free[b] <==> s.free[b] || HeldIn(s, f, Blocks(newsize), Blocks(s.files[f].size), b) ||
                               (Blocks(newsize) <= NDIRECT && b == s.files[f].indirect))
    ensures s'.files.Keys == s.files.Keys && s'.files[f].size == newsize
  {
    var lo, hi := Blocks(newsize), Blocks(s.files[f].size);
    var c := ClearRange(s, f, lo, hi);
    ClearRangeKeeps(s, c.0, c.1, f, lo, hi);
    assert At(s, Ind(f)) == s.files[f].indirect && s.files[f].indirect < |s.free|;
    FinishSlots(c.1, s', f, newsize);
    forall y: Slot
      ensures At(s', y) == TruncatedAt(s, f, newsize, y)
    {
      assert At(c.1, y) == if InRangeSlot(f, lo, hi, y) then 0 else At(s, y);
      assert y.Entry? && y.i < NDIRECT ==> At(s, Entry(y.f, y.i)) == 0;
    }
  }

  /** The end of file_truncate: drop the index block if it is not needed, set the size. */
  lemma FinishSlots(s: Fs, s': Fs, f: nat, newsize: nat)
    requires Sized(s) && f in s.files
    requires s' == var s1 := if Blocks(newsize) <= NDIRECT && s.files[f].indirect != 0
                             then SetIndirect(FreeBlock(s, s.files[f].indirect), f, 0) else s;
                   s1.(files := s1.files[f := s1.files[f].(size := newsize)])
    requires s.files[f].indirect != 0 ==> s.reserved <= s.files[f].indirect
    ensures Sized(s') && s'.reserved == s.reserved && s'.files.Keys == s.files.Keys
    ensures s'.files[f].size == newsize
    ensures forall y: Slot :: At(s', y) ==
              if Blocks(newsize) <= NDIRECT && y.f == f && !y.Direct? then 0 else At(s, y)
    ensures s'.free == if Blocks(newsize) <= NDIRECT && 0 != s.files[f].indirect < |s.free|
                       then s.free[s.files[f].indirect := true] else s.free
  {
  }

  /**
   file_truncate succeeds unless it must clear an indirect slot of a file that has no index
   block, or one past the last, or whose index block cannot be read; it frees exactly the
   blocks of slots [new, old) and, if at most ten blocks remain, the index block; and it
   keeps the invariant exactly when no block hung in the index table past the old size.
   */
  lemma TruncateExact(s: Fs, ok: bool, s': Fs, f: nat, newsize: nat)
    requires Inv(s) && f in s.files && (ok, s') == FileTruncate(s, f, newsize)
    ensures var lo, hi := Blocks(newsize), Blocks(s.files[f].size);
      ok <==> lo >= hi || hi <= NDIRECT || (hi <= NINDIRECT && s.files[f].indirect != 0 && Readable(s, f))
    ensures ok ==> forall y: Slot :: At(s', y) == TruncatedAt(s, f, newsize, y)
    ensures ok ==> |s'.free| == |s.free|
    ensures ok ==> forall b :: 0 < b < |s.free| ==>
              (s'.free[b] <==> s.free[b] || HeldIn(s, f, Blocks(newsize), Blocks(s.files[f].size), b) ||
                               (Blocks(newsize) <= NDIRECT && b == s.files[f].indirect))
    ensures ok ==> (Inv(s') <==> NoTail(s, f, newsize))
  {
    var lo, hi := Blocks(newsize), Blocks(s.files[f].size);
    var c := ClearRange(s, f, lo, hi);
    ClearRangeKeeps(s, c.0, c.1, f, lo, hi);
    if ok {
      TruncateSlots(s, s', f, newsize);
      if NoTail(s, f, newsize) {
        TruncateInv(s, s', f, newsize);
      } else {
        TailLeaks(s, s', f, newsize);
      }
    }
  }

  lemma TruncateInv(s: Fs, s': Fs, f: nat, newsize: nat)
    requires Inv(s) && f in s.files && (true, s') == FileTruncate(s, f, newsize) && NoTail(s, f, newsize)
    ensures Inv(s')
  {
    TruncateSlots(s, s', f, newsize);
    var lo, hi := Blocks(newsize), Blocks(s.files[f].size);
    forall y: Slot | At(s', y) != 0
      ensures s'.reserved <= At(s', y) < |s'.free| && !s'.free[At(s', y)]
    {
      var b := At(s', y);
      assert At(s, y) == b;
      assert At(s, Ind(f)) == s.files[f].indirect;
    }
    forall b | s'.reserved <= b < |s'.free| && !s'.free[b]
      ensures exists y: Slot :: At(s', y) == b
    {
      var y: Slot :| At(s, y) == b;
      StillHeld(s, s', f, newsize, y, b);
    }
  }

  lemma StillHeld(s: Fs, s': Fs, f: nat, newsize: nat, y: Slot, b: nat)
    requires Inv(s) && f in s.files && (true, s') == FileTruncate(s, f, newsize) && NoTail(s, f, newsize)
    requires |s'.free| == |s.free| && 0 < b < |s.free| && !s'.free[b] && At(s, y) == b
    requires forall x: Slot :: At(s', x) == TruncatedAt(s, f, newsize, x)
    requires forall c :: 0 < c < |s.free| ==>
              (s'.free[c] <==> s.free[c] || HeldIn(s, f, Blocks(newsize), Blocks(s.files[f].size), c) ||
                               (Blocks(newsize) <= NDIRECT && c == s.files[f].indirect))
    ensures At(s', y) == b
  {
    var lo, hi := Blocks(newsize), Blocks(s.files[f].size);
    if y.f == f {
      assert !HeldIn(s, f, lo, hi, b);
      if y.Direct? { assert SlotOf(f, y.i) == y; }
      if y.Entry? && y.i >= NDIRECT { assert SlotOf(f, y.i) == y; }
    }
  }

  lemma TailLeaks(s: Fs, s': Fs, f: nat, newsize: nat)
    requires Inv(s) && f in s.files && (true, s') == FileTruncate(s, f, newsize) && !NoTail(s, f, newsize)
    ensures !NoLeak(s')
  {
    TruncateSlots(s, s', f, newsize);
    var lo, hi := Blocks(newsize), Blocks(s.files[f].size);
    var i: nat :| hi <= i && At(s, Entry(f, i)) != 0;
    var b := At(s, Entry(f, i));
    assert At(s, Ind(f)) == s.files[f].indirect;
    assert !s'.free[b];
    forall y: Slot
      ensures At(s', y) != b
    {
      assert At(s', y) == TruncatedAt(s, f, newsize, y);
    }
  }

  // ---- runs ----

  datatype Step =
    | Create(f: nat, words: File)
    | Extend(f: nat, newsize: nat)
    | WriteData(x: Slot, row: seq<nat>)
    | MapBlock(f: nat, n: nat, alloc: bool)
    | ClearBlock(f: nat, n: nat)
    | Truncate(f: nat, newsize: nat)
    | Remove(f: nat)

  /** A record as it is read from a block of zeros. */
  predicate Blank(words: File) {
    |words.direct| == NDIRECT && words.indirect == 0 && forall i :: 0 <= i < NDIRECT ==> words.direct[i] == 0
  }

  /** The conditions the code leaves to luck: clean records and index blocks, and no block past the size. */
  ghost predicate Enabled(s: Fs, st: Step) {
    && 3 <= |s.free| == |s.index|
    && match st
       case Create(f, words) => f !in s.files && Blank(words)
       case Extend(f, newsize) => f in s.files && s.files[f].size <= newsize
       case WriteData(x, row) => !x.Ind? && At(s, x) != 0 && |row| == NINDIRECT
       case MapBlock(f, n, alloc) => f in s.files && (TakesIndex(s, f, n, alloc) ==> NextReadsZero(s))
       case ClearBlock(f, n) => f in s.files
       case Truncate(f, newsize) => f in s.files && NoTail(s, f, newsize) && FileTruncate(s, f, newsize).0
       case Remove(f) => f in s.files && NoTail(s, f, 0) && FileTruncate(s, f, 0).0
  }

  ghost function Apply(s: Fs, st: Step): Fs
    requires Enabled(s, st)
  {
    match st
    case Create(f, words) => s.(files := s.files[f := words])
    case Extend(f, newsize) => s.(files := s.files[f := s.files[f].(size := newsize)])
    case WriteData(x, row) => if At(s, x) < |s.index| then s.(index := s.index[At(s, x) := row]) else s
    case MapBlock(f, n, alloc) => FileMapBlock(s, f, n, alloc).1
    case ClearBlock(f, n) => FileClearBlock(s, f, n).1
    case Truncate(f, newsize) => FileTruncate(s, f, newsize).1
    case Remove(f) => FileTruncate(s, f, 0).1
  }

  lemma StepKeeps(s: Fs, st: Step)
    requires Inv(s) && Enabled(s, st)
    ensures Inv(Apply(s, st))
  {
    var s' := Apply(s, st);
    match st {
      case Create(f, words) => CreateExact(s, s', f, words);
      case Extend(f, newsize) => ExtendKeeps(s, s', f, newsize);
      case WriteData(x, row) => WriteDataKeeps(s, s', x, row);
      case MapBlock(f, n, alloc) => MapBlockKeeps(s, FileMapBlock(s, f, n, alloc).0, s', f, n, alloc);
      case ClearBlock(f, n) => ClearBlockKeeps(s, FileClearBlock(s, f, n).0, s', f, n);
      case Truncate(f, newsize) => TruncateExact(s, true, s', f, newsize);
      case Remove(f) => TruncateExact(s, true, s', f, 0);
    }
  }

  /**
   A record comes into use with whatever words its place in the directory block holds: the disk
   stays sound if and only if they are zeros.
   */
  lemma CreateExact(s: Fs, s': Fs, f: nat, words: File)
    requires Inv(s) && f !in s.files && |words.direct| == NDIRECT && s' == s.(files := s.files[f := words])
    ensures Inv(s') <==> Blank(words)
  {
    if Blank(words) {
      assert forall x: Slot :: At(s', x) == At(s, x);
    } else {
      forall x: Slot | At(s, x) != 0
        ensures At(s', x) == At(s, x) && x.f != f
      {
      }
      if words.indirect != 0 {
        StalePointer(s, s', Ind(f));
      } else {
        var i :| 0 <= i < NDIRECT && words.direct[i] != 0;
        StalePointer(s, s', Direct(f, i));
      }
    }
  }

  /** An old pointer leads off the disk, to a free block, or to a block of another file. */
  lemma StalePointer(s: Fs, s': Fs, x: Slot)
    requires Inv(s) && At(s', x) != 0 && s'.free == s.free && s'.reserved == s.reserved
    requires forall y: Slot :: At(s, y) != 0 ==> At(s', y) == At(s, y) && y.f != x.f
    ensures !Inv(s')
  {
    hide At;
    var b := At(s', x);
    if s.reserved <= b < |s.free| && !s.free[b] {
      var y: Slot :| At(s, y) == b;
      assert At(s', y) == b && y != x;
    }
  }

  /** file_set_size to a larger size changes no block. */
  lemma ExtendKeeps(s: Fs, s': Fs, f: nat, newsize: nat)
    requires Inv(s) && f in s.files && s' == s.(files := s.files[f := s.files[f].(size := newsize)])
    ensures Inv(s') && forall x: Slot :: At(s', x) == At(s, x)
  {
    assert forall x: Slot :: At(s', x) == At(s, x);
    SameAtInv(s, s');
  }

  /** Writing the data of a file leaves every pointer of every file as it is. */
  lemma WriteDataKeeps(s: Fs, s': Fs, x: Slot, row: seq<nat>)
    requires Inv(s) && !x.Ind? && At(s, x) != 0 && |row| == NINDIRECT
    requires s' == if At(s, x) < |s.index| then s.(index := s.index[At(s, x) := row]) else s
    ensures Inv(s') && forall y: Slot :: At(s', y) == At(s, y)
  {
    assert forall f :: f in s.files ==> At(s, Ind(f)) == s.files[f].indirect;
    assert forall y: Slot :: At(s', y) == At(s, y);
    SameAtInv(s, s');
  }

  /** The invariant depends on slots, bitmap and sizes of arrays only. */
  lemma SameAtInv(s: Fs, s': Fs)
    requires Inv(s) && Sized(s') && s'.reserved == s.reserved && s'.free == s.free
    requires forall x: Slot :: At(s', x) == At(s, x)
    ensures Inv(s')
  {
    hide At;
    forall b | s'.reserved <= b < |s'.free| && !s'.free[b]
      ensures exists x: Slot :: At(s', x) == b
    {
      var x: Slot :| At(s, x) == b;
      assert At(s', x) == b;
    }
  }

  ghost predicate IsRun(states: seq<Fs>, steps: seq<Step>) {
    && |states| == |steps| + 1
    && (forall i :: 0 <= i < |steps| ==> Next(states[i], steps[i], states[i + 1]))
  }

  ghost predicate Next(s: Fs, st: Step, s': Fs) { Enabled(s, st) && s' == Apply(s, st) }

  /**
   In every run from a sound disk no block is ever shared or lost, and reading the block in
   any slot of any file never hits the "reading free block" or "non-existent block" panic.
   */
  lemma {:induction false} RunSafety(states: seq<Fs>, steps: seq<Step>, n: nat)
    requires IsRun(states, steps) && n <= |steps| && Inv(states[0])
    ensures Inv(states[n])
    ensures forall x: Slot :: At(states[n], x) != 0 ==> !ReadBlock(states[n], At(states[n], x)).0.Panic?
  {
    hide Inv;
    hide Apply;
    hide Enabled;
    hide At;
    if n > 0 {
      RunSafety(states, steps, n - 1);
      assert Next(states[n - 1], steps[n - 1], states[n]);
      StepKeeps(states[n - 1], steps[n - 1]);
    }
    SlotsReadable(states[n]);
  }

  lemma SlotsReadable(s: Fs)
    requires Inv(s)
    ensures forall x: Slot :: At(s, x) != 0 ==> !ReadBlock(s, At(s, x)).0.Panic?
  {
  }

  /** How a reused block comes to be shared: the stale contents of a cached data block. */
  lemma StaleIndexExample()
    ensures exists s: Fs :: Inv(s) && 0 in s.files && TakesIndex(s, 0, 10, true) &&
                            !Inv(FileMapBlock(s, 0, 10, true).1)
  {
    var zero := File(seq(NDIRECT, _ => 0), 0, 0);
    var used := File(seq(NDIRECT, i => if i == 0 then 3 else 0), 0, 0);
    var stale: seq<nat> := ZeroIndex()[10 := 3];
    var s := Fs(3, [false, false, false, false, true], map[0 := zero, 1 := used],
                [ZeroIndex(), ZeroIndex(), ZeroIndex(), ZeroIndex(), stale], {4}, 0);
    assert At(s, Direct(1, 0)) == 3;
    forall x: Slot
      ensures At(s, x) == if x == Direct(1, 0) then 3 else 0
    {
    }
    assert FirstFree(s.free, 3) == 4;
    MapBlockKeeps(s, FileMapBlock(s, 0, 10, true).0, FileMapBlock(s, 0, 10, true).1, 0, 10, true);
    assert s.index[4][10] == 3;
  }

  /** How a block comes to be lost: it hangs in the index table of a file whose size is 0. */
  lemma LostTailExample()
    ensures exists s: Fs :: Inv(s) && 0 in s.files && !NoTail(s, 0, 0) && FileTruncate(s, 0, 0).0 &&
                            !NoLeak(FileTruncate(s, 0, 0).1)
  {
    var table: seq<nat> := ZeroIndex()[10 := 4];
    var s := Fs(3, [false, false, false, false, false], map[0 := File(seq(NDIRECT, _ => 0), 3, 0)],
                [ZeroIndex(), ZeroIndex(), ZeroIndex(), table, ZeroIndex()], {}, 1);
    forall x: Slot
      ensures At(s, x) == if x == Ind(0) then 3 else if x == Entry(0, 10) then 4 else 0
    {
    }
    assert At(s, Ind(0)) == 3 && At(s, Entry(0, 10)) == 4;
    forall b | s.reserved <= b < |s.free| && !s.free[b]
      ensures exists x: Slot :: At(s, x) == b
    {
      if b == 3 { assert At(s, Ind(0)) == b; } else { assert At(s, Entry(0, 10)) == b; }
    }
    assert Inv(s) && !NoTail(s, 0, 0);
    TruncateExact(s, FileTruncate(s, 0, 0).0, FileTruncate(s, 0, 0).1, 0, 0);
    TailLeaks(s, FileTruncate(s, 0, 0).1, 0, 0);
  }
}

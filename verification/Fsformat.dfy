/**
 The image builder (tools/fsformat.c): blocks are handed out in order, links to them are
 saved in direct slots and index blocks, and the bitmap is written last. The server's own
 block walk (module FsBlocks) is the reader of what is built here.
 */
module Fsformat {
  import opened FsBlocks

  const NBLOCK: nat := 1024
  const FIRST: nat := 3
  const FILE2BLK: nat := 16
  const BITMAP_WORDS: nat := 1024

  /** The root's record is in the super block; record j of directory block b is 16 * b + j. */
  const ROOT: nat := 0

  type Bytes = seq<bv8>

  /** The sizes as numbers: a bitmap of one block comes third, and a record takes 256 bytes. */
  lemma Constants()
    ensures NBLOCK == 1024 && FIRST == 2 + (1024 + 32767) / 32768 && FILE2BLK == 4096 / 256
    ensures BITMAP_WORDS * 32 == 8 * 4096
  {
  }

  /** A block by its type; a data block is zero past the bytes read into it. */
  datatype Block = Unused | Data(bytes: Bytes) | Records | Index(words: seq<nat>)

  /** `next` is nextbno, `files` the records with a name, `dirs` those of directory type. */
  datatype Image = Image(next: nat, files: map<nat, File>, dirs: set<nat>, blocks: seq<Block>)

  // ---- the image as the server sees it ----

  function Row(b: Block): seq<nat> { if b.Index? then b.words else ZeroIndex() }

  function Rows(blocks: seq<Block>): (r: seq<seq<nat>>)
    ensures |r| == |blocks| && forall i :: 0 <= i < |r| ==> r[i] == Row(blocks[i])
  {
    seq(|blocks|, i requires 0 <= i < |blocks| => Row(blocks[i]))
  }

  function FreeFrom(next: nat): (r: seq<bool>)
    ensures |r| == NBLOCK && forall i :: 0 <= i < NBLOCK ==> r[i] == (i >= next)
  {
    seq(NBLOCK, i => i >= next)
  }

  function Disk(m: Image): Fs {
    Fs(FIRST, FreeFrom(m.next), m.files, Rows(m.blocks), {}, 0)
  }

  function Slots(m: Image, x: Slot): nat { At(Disk(m), x) }

  // ---- building ----

  function Empty(): Image {
    Image(FIRST, map[ROOT := NewFile(0)], {ROOT}, seq(NBLOCK, _ => Unused))
  }

  function NewFile(size: nat): (f: File)
    ensures |f.direct| == NDIRECT && f.indirect == 0 && forall i :: 0 <= i < NDIRECT ==> f.direct[i] == 0
  {
    File(seq(NDIRECT, _ => 0), 0, size)
  }

  /** next_block, with what the block holds. */
  function NextBlock(m: Image, b: Block): Image
    requires m.next < |m.blocks|
  {
    m.(next := m.next + 1, blocks := m.blocks[m.next := b])
  }

  predicate NeedsIndex(m: Image, f: nat, n: nat)
    requires f in m.files
  {
    n >= NDIRECT && m.files[f].indirect == 0
  }

  /** How many blocks linking one more block takes. */
  function Cost(m: Image, f: nat, n: nat): nat
    requires f in m.files
  {
    if NeedsIndex(m, f, n) then 2 else 1
  }

  predicate Linkable(m: Image, f: nat, n: nat) {
    && f in m.files && n < NINDIRECT && |m.files[f].direct| == NDIRECT
    && (n >= NDIRECT && m.files[f].indirect == 0 ==> m.next < |m.blocks|)
    && (n >= NDIRECT && m.files[f].indirect != 0 ==>
          && m.files[f].indirect < |m.blocks| && m.blocks[m.files[f].indirect].Index?
          && |m.blocks[m.files[f].indirect].words| == NINDIRECT)
  }

  function SetIndex(m: Image, f: nat): Image
    requires f in m.files && m.next < |m.blocks|
  {
    NextBlock(m, Index(ZeroIndex())).(files := m.files[f := m.files[f].(indirect := m.next)])
  }

  /** save_block_link: block `bno` becomes block `n` of file `f`. */
  function SaveLink(m: Image, f: nat, n: nat, bno: nat): Image
    requires Linkable(m, f, n)
  {
    if n < NDIRECT then
      m.(files := m.files[f := m.files[f].(direct := m.files[f].direct[n := bno])])
    else
      var m1 := if m.files[f].indirect == 0 then SetIndex(m, f) else m;
      var t := m1.files[f].indirect;
      m1.(blocks := m1.blocks[t := Index(m1.blocks[t].words[n := bno])])
  }

  predicate CanAppend(m: Image, f: nat, n: nat) {
    m.next < |m.blocks| && f in m.files && m.files[f].indirect != m.next && Linkable(NextBlock(m, Unused), f, n)
  }

  /** A new block linked as block `n` of the file. */
  function Append(m: Image, f: nat, n: nat, b: Block): Image
    requires CanAppend(m, f, n)
  {
    SaveLink(NextBlock(m, b), f, n, m.next)
  }

  /** make_link_block: one more block of records for a directory. */
  function Grow(m: Image, dir: nat, n: nat): Image
    requires CanAppend(m, dir, n)
  {
    var m1 := Append(m, dir, n, Records);
    m1.(files := m1.files[dir := m1.files[dir].(size := m1.files[dir].size + BLOCK_SIZE)])
  }

  /** The first unused record of a directory block from record `j` on, or FILE2BLK. */
  function UnusedFrom(m: Image, bno: nat, j: nat): (r: nat)
    requires j <= FILE2BLK
    ensures j <= r <= FILE2BLK
    ensures r < FILE2BLK ==> FILE2BLK * bno + r !in m.files
    decreases FILE2BLK - j
  {
    if j == FILE2BLK || FILE2BLK * bno + j !in m.files then j else UnusedFrom(m, bno, j + 1)
  }

  datatype Found = Spare(record: nat) | Nowhere

  /** The scan of create_file from block `i` of the directory. */
  function Scan(m: Image, dir: nat, i: nat, n: nat): (r: Found)
    ensures r.Spare? ==> r.record !in m.files
    ensures r.Spare? ==> exists k: nat :: i <= k < n && r.record / FILE2BLK == Slots(m, SlotOf(dir, k))
    decreases n - i
  {
    if i >= n then Nowhere
    else
      var bno := Slots(m, SlotOf(dir, i));
      var j := UnusedFrom(m, bno, 0);
      if j < FILE2BLK then
        assert (FILE2BLK * bno + j) / FILE2BLK == bno;
        Spare(FILE2BLK * bno + j)
      else Scan(m, dir, i + 1, n)
  }

  function DirBlocks(m: Image, dir: nat): nat
    requires dir in m.files
  {
    m.files[dir].size / BLOCK_SIZE
  }

  /** create_file: an unused record of the directory, or the first of a new block. */
  function CreateFile(m: Image, dir: nat): (nat, Image)
    requires dir in m.files && (Scan(m, dir, 0, DirBlocks(m, dir)).Spare? || CanAppend(m, dir, DirBlocks(m, dir)))
  {
    var r := Scan(m, dir, 0, DirBlocks(m, dir));
    if r.Spare? then (r.record, m) else (FILE2BLK * m.next, Grow(m, dir, DirBlocks(m, dir)))
  }

  /** The pieces the reading loop of write_file gets. */
  function Chunks(bytes: Bytes): seq<Bytes>
    decreases |bytes|
  {
    if |bytes| <= BLOCK_SIZE then (if bytes == [] then [] else [bytes])
    else [bytes[..BLOCK_SIZE]] + Chunks(bytes[BLOCK_SIZE..])
  }

  /** The loop of write_file from block `n` of the file. */
  function WriteFrom(m: Image, f: nat, n: nat, chunks: seq<Bytes>): Image
    decreases |chunks|
  {
    if chunks == [] || !CanAppend(m, f, n) then m
    else WriteFrom(Append(m, f, n, Data(chunks[0])), f, n + 1, chunks[1..])
  }

  // ---- invariant ----

  ghost predicate Inv(m: Image) {
    && FIRST <= m.next <= NBLOCK == |m.blocks|
    && (forall b :: m.next <= b < NBLOCK ==> m.blocks[b] == Unused)
    && (forall b :: 0 <= b < NBLOCK && m.blocks[b].Index? ==> |m.blocks[b].words| == NINDIRECT)
    && (forall f :: f in m.files && m.files[f].indirect != 0 ==>
          m.files[f].indirect < NBLOCK && m.blocks[m.files[f].indirect].Index?)
    && FsBlocks.Inv(Disk(m))
  }

  /** The file has exactly the blocks 0 .. count - 1, and an index block if that takes one. */
  ghost predicate Shaped(m: Image, f: nat, count: nat) {
    && count <= NINDIRECT
    && (forall n: nat :: n < NINDIRECT ==> (Slots(m, SlotOf(f, n)) != 0 <==> n < count))
    && (Slots(m, Ind(f)) != 0 <==> count > NDIRECT)
  }

  /** Slots after a block has been appended to `f`. */
  function AppendedAt(m: Image, f: nat, n: nat, x: Slot): nat
    requires f in m.files
  {
    if x == SlotOf(f, n) then m.next
    else if x == Ind(f) && NeedsIndex(m, f, n) then m.next + 1
    else Slots(m, x)
  }

  /** Taking the next block as the file's index block: one slot changes. */
  lemma IndexGained(s: Fs, s': Fs, f: nat, b: nat, words: seq<nat>)
    requires FsBlocks.Inv(s) && f in s.files && s.files[f].indirect == 0
    requires s.reserved <= b < |s.free| && s.free[b] && words == ZeroIndex()
    requires s' == s.(free := s.free[b := false], index := s.index[b := words],
                      files := s.files[f := s.files[f].(indirect := b)])
    ensures FsBlocks.Inv(s') && forall y: Slot :: At(s', y) == if y == Ind(f) then b else At(s, y)
  {
    assert At(s, Ind(f)) == 0;
    forall y: Slot
      ensures At(s', y) == if y == Ind(f) then b else At(s, y)
    {
      if y.f in s.files && y.f != f { assert At(s, Ind(y.f)) == s.files[y.f].indirect; }
    }
    GainedInv(s, s', Ind(f), b);
  }

  /** Linking a free block in an empty slot: one slot changes. */
  lemma LinkGained(s: Fs, s': Fs, f: nat, n: nat, b: nat)
    requires FsBlocks.Inv(s) && f in s.files && n < NINDIRECT && (n < NDIRECT || s.files[f].indirect != 0)
    requires s.reserved <= b < |s.free| && s.free[b] && At(s, SlotOf(f, n)) == 0
    requires CanWrite(s, SlotOf(f, n)) && s' == WriteSlot(s, SlotOf(f, n), b).(free := s.free[b := false])
    ensures FsBlocks.Inv(s')
    ensures forall y: Slot :: At(s', y) == if y == SlotOf(f, n) then b else At(s, y)
  {
    var x := SlotOf(f, n);
    var w := WriteSlot(s, x, b);
    CanWriteSlot(s, f, n);
    IndexIsOwn(s, f);
    WriteSlotAt(s, w, x, b);
    assert forall y: Slot :: At(s', y) == At(w, y);
    GainedInv(s, s', x, b);
  }

  lemma CanAppendIff(m: Image, f: nat, n: nat)
    requires Inv(m) && f in m.files && n < NINDIRECT
    ensures CanAppend(m, f, n) <==> m.next + Cost(m, f, n) <= NBLOCK
  {
    hide FsBlocks.Inv;
    IndirectBelow(m, f);
  }

  lemma IndirectBelow(m: Image, f: nat)
    requires Inv(m) && f in m.files
    ensures m.files[f].indirect < m.next && |m.files[f].direct| == NDIRECT
  {
    assert Slots(m, Ind(f)) == m.files[f].indirect;
  }

  lemma AppendFrame(m: Image, m': Image, f: nat, n: nat, b: Block)
    requires Inv(m) && f in m.files && n < NINDIRECT && !b.Index?
    requires CanAppend(m, f, n) && m' == Append(m, f, n, b)
    ensures FIRST <= m'.next == m.next + Cost(m, f, n) <= NBLOCK == |m'.blocks|
    ensures m'.blocks[m.next] == b
    ensures forall c :: 0 <= c < m.next && !m.blocks[c].Index? ==> m'.blocks[c] == m.blocks[c]
    ensures m'.files.Keys == m.files.Keys && m'.dirs == m.dirs
    ensures forall g :: g in m.files ==> m'.files[g].size == m.files[g].size
    ensures forall c :: m'.next <= c < NBLOCK ==> m'.blocks[c] == Unused
  {
    hide FsBlocks.Inv;
    hide At;
    CanAppendIff(m, f, n);
    IndirectBelow(m, f);
  }

  /** Index blocks stay index blocks, and every file's index block is one. */
  lemma AppendIndexes(m: Image, m': Image, f: nat, n: nat, b: Block)
    requires Inv(m) && f in m.files && n < NINDIRECT && !b.Index?
    requires CanAppend(m, f, n) && m' == Append(m, f, n, b) && |m'.blocks| == NBLOCK
    ensures forall c :: 0 <= c < NBLOCK && m'.blocks[c].Index? ==> |m'.blocks[c].words| == NINDIRECT
    ensures forall g :: g in m'.files && m'.files[g].indirect != 0 ==>
              m'.files[g].indirect < NBLOCK && m'.blocks[m'.files[g].indirect].Index?
  {
    hide FsBlocks.Inv;
    hide At;
    CanAppendIff(m, f, n);
    forall g | g in m.files
      ensures m.files[g].indirect < m.next
    {
      IndirectBelow(m, g);
    }
  }

  lemma AppendDirect(m: Image, m': Image, f: nat, n: nat, b: Block)
    requires Inv(m) && f in m.files && n < NINDIRECT && Slots(m, SlotOf(f, n)) == 0 && !b.Index?
    requires CanAppend(m, f, n) && m' == Append(m, f, n, b) && !NeedsIndex(m, f, n)
    ensures FsBlocks.Inv(Disk(m')) && forall x: Slot :: Slots(m', x) == AppendedAt(m, f, n, x)
  {
    hide FsBlocks.Inv;
    hide At;
    CanAppendIff(m, f, n);
    IndirectBelow(m, f);
    var s, s' := Disk(m), Disk(m');
    var s2 := WriteSlot(s, SlotOf(f, n), m.next).(free := s.free[m.next := false]);
    LinkGained(s, s2, f, n, m.next);
    assert s'.free == s2.free;
    assert s'.index == s2.index;
    assert s' == s2;
  }

  lemma AppendIndexed(m: Image, m': Image, f: nat, n: nat, b: Block)
    requires Inv(m) && f in m.files && n < NINDIRECT && Slots(m, SlotOf(f, n)) == 0 && !b.Index?
    requires CanAppend(m, f, n) && m' == Append(m, f, n, b) && NeedsIndex(m, f, n)
    ensures FsBlocks.Inv(Disk(m')) && forall x: Slot :: Slots(m', x) == AppendedAt(m, f, n, x)
  {
    hide FsBlocks.Inv;
    hide At;
    CanAppendIff(m, f, n);
    IndirectBelow(m, f);
    var s, s' := Disk(m), Disk(m');
    var s1 := s.(free := s.free[m.next + 1 := false], index := s.index[m.next + 1 := ZeroIndex()],
                 files := s.files[f := s.files[f].(indirect := m.next + 1)]);
    IndexGained(s, s1, f, m.next + 1, ZeroIndex());
    var s2 := WriteSlot(s1, SlotOf(f, n), m.next).(free := s1.free[m.next := false]);
    LinkGained(s1, s2, f, n, m.next);
    assert s'.free == s2.free;
    assert s'.index == s2.index;
    assert s' == s2;
  }

  /** Appending one block: exactly the new links appear, and every block already written stays. */
  lemma AppendKeeps(m: Image, m': Image, f: nat, n: nat, b: Block)
    requires Inv(m) && f in m.files && n < NINDIRECT && Slots(m, SlotOf(f, n)) == 0 && !b.Index?
    requires CanAppend(m, f, n) && m' == Append(m, f, n, b)
    ensures Inv(m') && m'.next == m.next + Cost(m, f, n)
    ensures forall x: Slot :: Slots(m', x) == AppendedAt(m, f, n, x)
    ensures m'.blocks[m.next] == b
    ensures forall c :: 0 <= c < m.next && !m.blocks[c].Index? ==> m'.blocks[c] == m.blocks[c]
    ensures m'.files.Keys == m.files.Keys && m'.dirs == m.dirs
    ensures forall g :: g in m.files ==> m'.files[g].size == m.files[g].size
  {
    hide FsBlocks.Inv;
    hide Slots;
    hide Append;
    hide CanAppend;
    AppendFrame(m, m', f, n, b);
    AppendIndexes(m, m', f, n, b);
    if NeedsIndex(m, f, n) {
      AppendIndexed(m, m', f, n, b);
    } else {
      AppendDirect(m, m', f, n, b);
    }
  }

  // ---- writing a file's chunks ----

  /** m' has everything m has; only the slots of `f` may differ. */
  ghost predicate Extends(m: Image, m': Image, f: nat) {
    && m.next <= m'.next && |m'.blocks| == |m.blocks| && m.next <= |m.blocks|
    && (forall c :: 0 <= c < m.next && !m.blocks[c].Index? ==> m'.blocks[c] == m.blocks[c])
    && m'.files.Keys == m.files.Keys && m'.dirs == m.dirs
    && (forall g :: g in m.files ==> m'.files[g].size == m.files[g].size)
    && (forall x: Slot :: x.f != f ==> Slots(m', x) == Slots(m, x))
  }

  /** Blocks that `count` chunks take from block `n` of a file on. */
  function ChunkCost(n: nat, count: nat): nat { count + if n <= NDIRECT < n + count then 1 else 0 }

  /** Slot `n + k` leads to chunk k, for every chunk. */
  ghost predicate Stored(m: Image, f: nat, n: nat, chunks: seq<Bytes>) {
    forall k: nat :: k < |chunks| ==>
      var b := Slots(m, SlotOf(f, n + k));
      b < |m.blocks| && m.blocks[b] == Data(chunks[k])
  }

  lemma AppendShape(m: Image, m': Image, f: nat, n: nat)
    requires f in m.files && Shaped(m, f, n) && n < NINDIRECT && m.next > 0
    requires forall x: Slot :: Slots(m', x) == AppendedAt(m, f, n, x)
    ensures Shaped(m', f, n + 1) && Cost(m, f, n) == ChunkCost(n, 1)
    ensures forall k: nat :: k < n ==> Slots(m', SlotOf(f, k)) == Slots(m, SlotOf(f, k))
  {
    assert Slots(m, Ind(f)) == m.files[f].indirect;
    hide Slots;
  }

  lemma NothingStored(m: Image, f: nat, n: nat)
    requires Inv(m)
    ensures Stored(m, f, n, []) && Extends(m, m, f)
  {
  }

  lemma ExtendsFacts(m: Image, m': Image, f: nat)
    requires Extends(m, m', f)
    ensures m'.files.Keys == m.files.Keys && |m'.blocks| == |m.blocks| && m.next <= |m.blocks|
    ensures forall c :: 0 <= c < m.next && !m.blocks[c].Index? ==> m'.blocks[c] == m.blocks[c]
  {
  }

  lemma ExtendsTrans(a: Image, b: Image, c: Image, f: nat)
    requires Extends(a, b, f) && Extends(b, c, f)
    ensures Extends(a, c, f)
  {
    hide Slots;
  }

  /** One chunk more in front. */
  lemma StoredCons(m: Image, f: nat, n: nat, chunks: seq<Bytes>)
    requires chunks != [] && Stored(m, f, n + 1, chunks[1..])
    requires Slots(m, SlotOf(f, n)) < |m.blocks| && m.blocks[Slots(m, SlotOf(f, n))] == Data(chunks[0])
    ensures Stored(m, f, n, chunks)
  {
    hide Slots;
    hide SlotOf;
    forall k: nat | k < |chunks|
      ensures var b := Slots(m, SlotOf(f, n + k)); b < |m.blocks| && m.blocks[b] == Data(chunks[k])
    {
      if k > 0 {
        assert Slots(m, SlotOf(f, n + 1 + (k - 1))) == Slots(m, SlotOf(f, n + k));
        assert chunks[1..][k - 1] == chunks[k];
      }
    }
  }

  /** One more chunk: the new slot leads to it and nothing else moves. */
  lemma ChunkKeeps(m: Image, m1: Image, f: nat, n: nat, chunk: Bytes)
    requires Inv(m) && f in m.files && Shaped(m, f, n) && n < NINDIRECT
    requires CanAppend(m, f, n) && m1 == Append(m, f, n, Data(chunk))
    ensures Inv(m1) && Shaped(m1, f, n + 1) && Extends(m, m1, f) && m1.next == m.next + ChunkCost(n, 1)
    ensures Slots(m1, SlotOf(f, n)) == m.next && m.next < m1.next && m1.blocks[m.next] == Data(chunk)
    ensures forall k: nat :: k < n ==> Slots(m1, SlotOf(f, k)) == Slots(m, SlotOf(f, k))
  {
    hide FsBlocks.Inv;
    hide Append;
    hide CanAppend;
    AppendKeeps(m, m1, f, n, Data(chunk));
    AppendShape(m, m1, f, n);
    hide Slots;
  }

  lemma RoomToAppend(m: Image, f: nat, n: nat, count: nat)
    requires Inv(m) && f in m.files && Shaped(m, f, n) && 0 < count && n + count <= NINDIRECT
    requires m.next + ChunkCost(n, count) <= NBLOCK
    ensures CanAppend(m, f, n)
  {
    assert Slots(m, Ind(f)) == m.files[f].indirect;
    CanAppendIff(m, f, n);
  }

  /** The loop of write_file stores every chunk where the next slots lead, and nothing else moves. */
  lemma {:induction false} WriteKeeps(m: Image, m': Image, f: nat, n: nat, chunks: seq<Bytes>)
    requires Inv(m) && f in m.files && Shaped(m, f, n) && n + |chunks| <= NINDIRECT
    requires m.next + ChunkCost(n, |chunks|) <= NBLOCK && m' == WriteFrom(m, f, n, chunks)
    ensures Inv(m') && Shaped(m', f, n + |chunks|) && Extends(m, m', f)
    ensures m'.next == m.next + ChunkCost(n, |chunks|)
    ensures Stored(m', f, n, chunks)
    ensures forall k: nat :: k < n ==> Slots(m', SlotOf(f, k)) == Slots(m, SlotOf(f, k))
    decreases |chunks|
  {
    hide Inv, Slots, SlotOf, Append, CanAppend, Shaped, Stored, Extends;
    if chunks == [] {
      NothingStored(m, f, n);
    } else {
      RoomToAppend(m, f, n, |chunks|);
      var m1 := Append(m, f, n, Data(chunks[0]));
      ChunkKeeps(m, m1, f, n, chunks[0]);
      ExtendsFacts(m, m1, f);
      WriteKeeps(m1, m', f, n + 1, chunks[1..]);
      ExtendsTrans(m, m1, m', f);
      ExtendsFacts(m1, m', f);
      StoredCons(m', f, n, chunks);
    }
  }

  // ---- whole files ----

  ghost predicate Sound(m: Image) {
    && Inv(m) && ROOT in m.dirs && m.dirs <= m.files.Keys
    && (forall f :: f in m.files ==> f < FILE2BLK * m.next)
    && (forall d :: d in m.dirs ==>
          && m.files[d].size % BLOCK_SIZE == 0 && DirBlocks(m, d) + FIRST <= m.next
          && Shaped(m, d, DirBlocks(m, d)))
  }

  /** File `f` is a regular file holding these bytes. */
  ghost predicate Holds(m: Image, f: nat, bytes: Bytes) {
    && f in m.files && f !in m.dirs && m.files[f].size == |bytes|
    && Shaped(m, f, |Chunks(bytes)|) && Stored(m, f, 0, Chunks(bytes))
    && (forall k: nat :: k < |Chunks(bytes)| ==> Slots(m, SlotOf(f, k)) < m.next)
  }

  /** The record of `f` is in a block of directory `dir`. */
  ghost predicate Listed(m: Image, dir: nat, f: nat) {
    && dir in m.dirs && dir in m.files && f in m.files
    && exists k: nat :: k < DirBlocks(m, dir) && Slots(m, SlotOf(dir, k)) == f / FILE2BLK
  }

  function CreateCost(m: Image, dir: nat): nat
    requires dir in m.files
  {
    if Scan(m, dir, 0, DirBlocks(m, dir)).Spare? then 0 else Cost(m, dir, DirBlocks(m, dir))
  }

  datatype Op = PutFile(dir: nat, bytes: Bytes) | PutDir(dir: nat)

  function FileCost(op: Op): nat { if op.PutFile? then ChunkCost(0, |Chunks(op.bytes)|) else 0 }

  /** The directory exists and the disk has room. */
  predicate Fits(m: Image, op: Op) {
    op.dir in m.dirs && op.dir in m.files && m.next + CreateCost(m, op.dir) + FileCost(op) <= NBLOCK
  }

  /** A record gets a name, so it is in use; it has no blocks yet. */
  function AddRecord(m: Image, f: nat, size: nat, isDir: bool): Image {
    m.(files := m.files[f := NewFile(size)], dirs := if isDir then m.dirs + {f} else m.dirs)
  }

  /** write_file, or the part of write_directory that makes the directory itself. */
  function Put(m: Image, op: Op): (nat, Image) {
    if op.dir !in m.files || (CreateCost(m, op.dir) != 0 && !CanAppend(m, op.dir, DirBlocks(m, op.dir))) then (ROOT, m)
    else
      var (f, m1) := CreateFile(m, op.dir);
      match op
      case PutFile(_, bytes) => (f, WriteFrom(AddRecord(m1, f, |bytes|, false), f, 0, Chunks(bytes)))
      case PutDir(_) => (f, AddRecord(m1, f, 0, true))
  }

  lemma AddRecordKeeps(m: Image, m': Image, f: nat, size: nat, isDir: bool)
    requires Inv(m) && f !in m.files && m' == AddRecord(m, f, size, isDir)
    ensures Inv(m') && (forall x: Slot :: Slots(m', x) == Slots(m, x)) && Shaped(m', f, 0)
  {
    forall x: Slot
      ensures Slots(m', x) == Slots(m, x)
    {
    }
    SameAtInv(Disk(m), Disk(m'));
  }

  lemma ResizeKeeps(m: Image, m': Image, f: nat, size: nat)
    requires Inv(m) && f in m.files && m' == m.(files := m.files[f := m.files[f].(size := size)])
    ensures Inv(m') && forall x: Slot :: Slots(m', x) == Slots(m, x)
  {
    SameAtInv(Disk(m), Disk(m'));
  }

  // ---- what later operations keep ----

  /** Every file of m is in m' with the same blocks; directories may have grown. */
  ghost predicate Later(m: Image, m': Image) {
    && m.next <= m'.next && |m'.blocks| == |m.blocks| && m.next <= |m.blocks|
    && (forall c :: 0 <= c < m.next && !m.blocks[c].Index? ==> m'.blocks[c] == m.blocks[c])
    && (forall g :: g in m.files ==> g in m'.files && (g in m'.dirs <==> g in m.dirs))
    && (forall x: Slot :: x.f in m.files && x.f !in m.dirs ==> Slots(m', x) == Slots(m, x))
    && (forall g :: g in m.files && g !in m.dirs ==> m'.files[g].size == m.files[g].size)
    && (forall d :: d in m.files && d in m.dirs ==> DirGrew(m, m', d))
  }

  ghost predicate DirGrew(m: Image, m': Image, d: nat)
    requires d in m.files && d in m'.files
  {
    && DirBlocks(m, d) <= DirBlocks(m', d)
    && (forall k: nat :: k < DirBlocks(m, d) ==> Slots(m', SlotOf(d, k)) == Slots(m, SlotOf(d, k)))
  }

  lemma LaterSelf(m: Image)
    requires Sound(m)
    ensures Later(m, m)
  {
    hide Slots;
  }

  lemma SoundInv(m: Image)
    requires Sound(m)
    ensures Inv(m) && m.dirs <= m.files.Keys
  {
  }

  lemma LaterTrans(a: Image, b: Image, c: Image)
    requires Later(a, b) && Later(b, c)
    ensures Later(a, c)
  {
    hide Slots;
    hide SlotOf;
    hide DirBlocks;
  }

  /** A file keeps its bytes. */
  lemma LaterHolds(m: Image, m': Image, f: nat, bytes: Bytes)
    requires Later(m, m') && Holds(m, f, bytes)
    ensures Holds(m', f, bytes)
  {
    hide Slots;
    hide Chunks;
    forall n: nat
      ensures Slots(m', SlotOf(f, n)) == Slots(m, SlotOf(f, n))
    {
      assert SlotOf(f, n).f == f;
    }
    assert Slots(m', Ind(f)) == Slots(m, Ind(f)) by { assert Ind(f).f == f; }
  }

  /** A record stays in its directory. */
  lemma LaterListed(m: Image, m': Image, dir: nat, f: nat)
    requires Later(m, m') && Listed(m, dir, f)
    ensures Listed(m', dir, f)
  {
    hide Slots;
    hide SlotOf;
    hide DirBlocks;
    var k: nat :| k < DirBlocks(m, dir) && Slots(m, SlotOf(dir, k)) == f / FILE2BLK;
    assert DirGrew(m, m', dir);
    assert k < DirBlocks(m', dir) && Slots(m', SlotOf(dir, k)) == f / FILE2BLK;
  }

  // ---- create_file ----

  ghost predicate SpotIn(m: Image, dir: nat, f: nat) {
    dir in m.files && exists k: nat :: k < DirBlocks(m, dir) && Slots(m, SlotOf(dir, k)) == f / FILE2BLK
  }

  lemma GrownBlocks(size: nat)
    requires size % BLOCK_SIZE == 0
    ensures (size + BLOCK_SIZE) / BLOCK_SIZE == size / BLOCK_SIZE + 1 && (size + BLOCK_SIZE) % BLOCK_SIZE == 0
  {
  }

  /** Slots and sizes after make_link_block. */
  lemma GrowFacts(m: Image, m1: Image, dir: nat)
    requires Sound(m) && dir in m.dirs && CanAppend(m, dir, DirBlocks(m, dir)) && m1 == Grow(m, dir, DirBlocks(m, dir))
    ensures Inv(m1) && m1.next == m.next + Cost(m, dir, DirBlocks(m, dir)) && m1.next <= NBLOCK
    ensures m1.files.Keys == m.files.Keys && m1.dirs == m.dirs
    ensures forall x: Slot :: Slots(m1, x) == AppendedAt(m, dir, DirBlocks(m, dir), x)
    ensures forall c :: 0 <= c < m.next && !m.blocks[c].Index? ==> m1.blocks[c] == m.blocks[c]
    ensures forall g :: g in m.files && g != dir ==> m1.files[g].size == m.files[g].size
    ensures m1.files[dir].size == m.files[dir].size + BLOCK_SIZE
  {
    hide FsBlocks.Inv;
    hide Slots;
    hide Append;
    hide CanAppend;
    var n := DirBlocks(m, dir);
    var ma := Append(m, dir, n, Records);
    AppendKeeps(m, ma, dir, n, Records);
    ResizeKeeps(ma, m1, dir, m1.files[dir].size);
  }

  lemma GrowDir(m: Image, m1: Image, dir: nat, d: nat)
    requires Sound(m) && dir in m.dirs && CanAppend(m, dir, DirBlocks(m, dir)) && m1 == Grow(m, dir, DirBlocks(m, dir))
    requires d in m.dirs && d in m1.files
    ensures DirGrew(m, m1, d) && Shaped(m1, d, DirBlocks(m1, d)) && m1.files[d].size % BLOCK_SIZE == 0
    ensures DirBlocks(m1, d) + FIRST <= m1.next
    ensures d == dir ==> DirBlocks(m1, d) == DirBlocks(m, d) + 1
  {
    GrowFacts(m, m1, dir);
    assert m.next > 0;
    hide Slots, Grow, CanAppend, Inv;
    if d == dir {
      GrownBlocks(m.files[dir].size);
      AppendShape(m, m1, dir, DirBlocks(m, dir));
    } else {
      hide NeedsIndex, Shaped;
      assert DirBlocks(m1, d) == DirBlocks(m, d);
      SameShape(m, m1, d, DirBlocks(m, d));
    }
  }

  lemma SameShape(m: Image, m1: Image, d: nat, n: nat)
    requires Shaped(m, d, n) && forall x: Slot | x.f == d :: Slots(m1, x) == Slots(m, x)
    ensures Shaped(m1, d, n)
  {
    hide Slots;
    assert Ind(d).f == d;
  }

  lemma GrowLater(m: Image, m1: Image, dir: nat)
    requires Sound(m) && dir in m.dirs && CanAppend(m, dir, DirBlocks(m, dir)) && m1 == Grow(m, dir, DirBlocks(m, dir))
    ensures Later(m, m1)
  {
    GrowFacts(m, m1, dir);
    assert dir in m.files && m.next <= |m.blocks| == |m1.blocks|;
    hide Sound, Slots, Grow, CanAppend, DirGrew, DirBlocks, NeedsIndex;
    forall d | d in m.files && d in m.dirs
      ensures DirGrew(m, m1, d)
    {
      GrowDir(m, m1, dir, d);
    }
  }

  lemma GrowKeeps(m: Image, m1: Image, dir: nat)
    requires Sound(m) && dir in m.dirs && CanAppend(m, dir, DirBlocks(m, dir)) && m1 == Grow(m, dir, DirBlocks(m, dir))
    ensures Sound(m1) && Later(m, m1) && SpotIn(m1, dir, FILE2BLK * m.next) && FILE2BLK * m.next !in m1.files
    ensures m1.next == m.next + Cost(m, dir, DirBlocks(m, dir)) && m1.dirs == m.dirs
  {
    hide Inv, Slots, SlotOf, Grow, CanAppend, DirBlocks, Shaped, Later;
    var n := DirBlocks(m, dir);
    GrowFacts(m, m1, dir);
    GrowLater(m, m1, dir);
    forall d | d in m1.dirs
      ensures Shaped(m1, d, DirBlocks(m1, d)) && m1.files[d].size % BLOCK_SIZE == 0
      ensures DirBlocks(m1, d) + FIRST <= m1.next
    {
      GrowDir(m, m1, dir, d);
    }
    GrowDir(m, m1, dir, dir);
    assert Slots(m1, SlotOf(dir, n)) == m.next == FILE2BLK * m.next / FILE2BLK;
  }

  /** create_file: an unused record in a block of the directory; nothing written is lost. */
  lemma CreateFileKeeps(m: Image, dir: nat, f: nat, m1: Image)
    requires Sound(m) && dir in m.dirs && m.next + CreateCost(m, dir) <= NBLOCK
    ensures CreateCost(m, dir) == 0 || CanAppend(m, dir, DirBlocks(m, dir))
    ensures (f, m1) == CreateFile(m, dir) ==>
              && Sound(m1) && Later(m, m1) && m1.next == m.next + CreateCost(m, dir)
              && SpotIn(m1, dir, f) && f !in m1.files && dir in m1.dirs && f < FILE2BLK * m1.next
  {
    var n := DirBlocks(m, dir);
    if !Scan(m, dir, 0, n).Spare? {
      CanAppendIff(m, dir, n);
      GrowKeeps(m, Grow(m, dir, n), dir);
    } else {
      SpareBelow(m, dir, Scan(m, dir, 0, n).record);
    }
  }

  /** A record in a block of a directory lies below the blocks not handed out. */
  lemma SpareBelow(m: Image, dir: nat, f: nat)
    requires Sound(m) && SpotIn(m, dir, f)
    ensures f < FILE2BLK * m.next
  {
    var k: nat :| k < DirBlocks(m, dir) && Slots(m, SlotOf(dir, k)) == f / FILE2BLK;
    SlotBelow(m, SlotOf(dir, k));
  }

  lemma SlotBelow(m: Image, x: Slot)
    requires Inv(m)
    ensures Slots(m, x) < m.next
  {
    if At(Disk(m), x) != 0 { assert InUse(Disk(m)); }
  }

  // ---- whole operations ----

  lemma AddLater(m: Image, m': Image, f: nat, size: nat, isDir: bool)
    requires Inv(m) && f !in m.files && m' == AddRecord(m, f, size, isDir)
    ensures Later(m, m')
  {
    hide FsBlocks.Inv;
    AddRecordKeeps(m, m', f, size, isDir);
    hide Slots;
  }

  lemma SlotFile(f: nat, n: nat)
    ensures SlotOf(f, n).f == f
  {
  }

  /** What extends m by slots of a record that m does not have comes later than m. */
  lemma ExtendsLater(m: Image, m1: Image, m': Image, f: nat)
    requires f !in m.files && Later(m, m1) && Extends(m1, m', f)
    ensures Later(m, m')
  {
    hide Slots, SlotOf;
    forall d | d in m.files && d in m.dirs
      ensures d in m'.files && DirGrew(m, m', d)
    {
      assert DirGrew(m, m1, d);
      assert DirBlocks(m', d) == DirBlocks(m1, d);
      forall k: nat | k < DirBlocks(m, d)
        ensures Slots(m', SlotOf(d, k)) == Slots(m, SlotOf(d, k))
      {
        SlotFile(d, k);
      }
    }
  }

  /** Directories of a sound image survive a step that leaves their slots and sizes alone. */
  lemma SoundStep(m: Image, m': Image, f: nat)
    requires Sound(m) && Inv(m') && m'.next >= m.next && f < FILE2BLK * m'.next
    requires m'.files.Keys == m.files.Keys + {f} && m.dirs <= m'.dirs <= m.dirs + {f} && f !in m.files
    requires forall g :: g in m.files ==> m'.files[g].size == m.files[g].size
    requires forall x: Slot :: x.f != f ==> Slots(m', x) == Slots(m, x)
    requires f in m'.dirs ==> m'.files[f].size == 0 && Shaped(m', f, 0)
    ensures Sound(m')
  {
    assert FIRST <= m.next;
    hide Slots, Inv;
    forall d | d in m'.dirs
      ensures m'.files[d].size % BLOCK_SIZE == 0 && DirBlocks(m', d) + FIRST <= m'.next
      ensures Shaped(m', d, DirBlocks(m', d))
    {
      if d != f {
        assert d in m.dirs && DirBlocks(m', d) == DirBlocks(m, d);
        assert Ind(d).f == d;
      }
    }
  }

  lemma ListedAfter(m: Image, m': Image, dir: nat, f: nat)
    requires SpotIn(m, dir, f) && dir in m.dirs && Later(m, m') && f in m'.files
    ensures Listed(m', dir, f)
  {
    hide Slots, SlotOf, DirBlocks;
    var k: nat :| k < DirBlocks(m, dir) && Slots(m, SlotOf(dir, k)) == f / FILE2BLK;
    assert DirGrew(m, m', dir);
    assert k < DirBlocks(m', dir) && Slots(m', SlotOf(dir, k)) == f / FILE2BLK;
  }

  /** The file part of write_file, from a record that create_file found. */
  lemma FileKeeps(m: Image, m': Image, f: nat, bytes: Bytes)
    requires Sound(m) && f !in m.files && f < FILE2BLK * m.next && m.next + ChunkCost(0, |Chunks(bytes)|) <= NBLOCK
    requires m' == WriteFrom(AddRecord(m, f, |bytes|, false), f, 0, Chunks(bytes))
    ensures Sound(m') && Later(m, m') && Holds(m', f, bytes) && m'.next == m.next + ChunkCost(0, |Chunks(bytes)|)
  {
    SoundInv(m);
    var m1 := AddRecord(m, f, |bytes|, false);
    AddRecordKeeps(m, m1, f, |bytes|, false);
    AddLater(m, m1, f, |bytes|, false);
    AddFacts(m, m1, f, |bytes|, false);
    hide *;
    FilledKeeps(m, m1, m', f, bytes);
  }

  lemma AddFacts(m: Image, m1: Image, f: nat, size: nat, isDir: bool)
    requires m1 == AddRecord(m, f, size, isDir) && f !in m.files
    ensures m1.next == m.next && m1.files.Keys == m.files.Keys + {f} && m1.files[f].size == size
    ensures m1.dirs == if isDir then m.dirs + {f} else m.dirs
    ensures forall g :: g in m.files ==> m1.files[g].size == m.files[g].size
  {
  }

  lemma FilledKeeps(m: Image, m1: Image, m': Image, f: nat, bytes: Bytes)
    requires Sound(m) && f !in m.files && f < FILE2BLK * m.next && m.next + ChunkCost(0, |Chunks(bytes)|) <= NBLOCK
    requires m1.next == m.next && m1.files.Keys == m.files.Keys + {f} && m1.dirs == m.dirs
    requires m1.files[f].size == |bytes|
    requires forall g :: g in m.files ==> m1.files[g].size == m.files[g].size
    requires forall x: Slot :: Slots(m1, x) == Slots(m, x)
    requires Inv(m1) && Shaped(m1, f, 0) && Later(m, m1) && m' == WriteFrom(m1, f, 0, Chunks(bytes))
    ensures Sound(m') && Later(m, m') && Holds(m', f, bytes) && m'.next == m.next + ChunkCost(0, |Chunks(bytes)|)
  {
    SoundInv(m);
    assert |Chunks(bytes)| <= NINDIRECT;
    hide *;
    WriteKeeps(m1, m', f, 0, Chunks(bytes));
    ExtendsLater(m, m1, m', f);
    FileSound(m, m1, m', f);
    HoldsFrom(m', f, bytes);
  }

  lemma HoldsFrom(m: Image, f: nat, bytes: Bytes)
    requires Inv(m) && f in m.files && f !in m.dirs && m.files[f].size == |bytes|
    requires Shaped(m, f, |Chunks(bytes)|) && Stored(m, f, 0, Chunks(bytes))
    ensures Holds(m, f, bytes)
  {
    hide Inv, Slots, SlotOf, Chunks, Shaped, Stored;
    forall k: nat | k < |Chunks(bytes)|
      ensures Slots(m, SlotOf(f, k)) < m.next
    {
      SlotBelow(m, SlotOf(f, k));
    }
  }

  lemma FileSound(m: Image, m1: Image, m': Image, f: nat)
    requires Sound(m) && f !in m.files && f < FILE2BLK * m.next && Inv(m') && Extends(m1, m', f)
    requires m1.next == m.next && m1.files.Keys == m.files.Keys + {f} && m1.dirs == m.dirs
    requires forall g :: g in m.files ==> m1.files[g].size == m.files[g].size
    requires forall x: Slot :: Slots(m1, x) == Slots(m, x)
    ensures Sound(m') && f in m'.files && f !in m'.dirs && m'.files[f].size == m1.files[f].size
  {
    SoundInv(m);
    hide Inv, Slots, Sound;
    SoundStep(m, m', f);
  }

  lemma DirKeeps(m: Image, m': Image, f: nat)
    requires Sound(m) && f !in m.files && f < FILE2BLK * m.next && m' == AddRecord(m, f, 0, true)
    ensures Sound(m') && Later(m, m')
  {
    hide FsBlocks.Inv, Slots;
    AddRecordKeeps(m, m', f, 0, true);
    AddLater(m, m', f, 0, true);
    SoundStep(m, m', f);
  }

  /**
   Adding a file or directory that fits: the image stays sound, the new record is in its
   directory and, for a file, holds its bytes; everything added before is still there.
   */
  lemma PutKeeps(m: Image, op: Op, f: nat, m': Image)
    requires Sound(m) && Fits(m, op) && (f, m') == Put(m, op)
    ensures Sound(m') && Later(m, m') && Listed(m', op.dir, f) && f !in m.files
    ensures m'.next == m.next + CreateCost(m, op.dir) + FileCost(op)
    ensures op.PutFile? ==> Holds(m', f, op.bytes)
    ensures op.PutDir? ==> f in m'.dirs
  {
    hide Inv, Slots, Chunks, WriteFrom, CreateFile, Scan, CanAppend, DirBlocks, Sound, Shaped, Stored, NeedsIndex;
    assert op.dir in m.dirs && m.next + CreateCost(m, op.dir) <= NBLOCK;
    CreateFileKeeps(m, op.dir, 0, m);
    var (g, m1) := CreateFile(m, op.dir);
    CreateFileKeeps(m, op.dir, g, m1);
    match op
    case PutFile(_, bytes) => FileKeeps(m1, m', f, bytes); PutTail(m, m1, m', op.dir, f);
    case PutDir(_) => DirKeeps(m1, m', f); PutTail(m, m1, m', op.dir, f);
  }

  lemma PutTail(m: Image, m1: Image, m': Image, dir: nat, f: nat)
    requires Later(m, m1) && Later(m1, m') && SpotIn(m1, dir, f) && dir in m1.dirs && f in m'.files && f !in m1.files
    ensures Later(m, m') && Listed(m', dir, f) && f !in m.files
  {
    LaterTrans(m, m1, m');
    ListedAfter(m1, m', dir, f);
  }

  lemma EmptySound()
    ensures Sound(Empty())
  {
    var m := Empty();
    assert forall x: Slot :: Slots(m, x) == 0;
    var s := Disk(m);
    assert Sized(s);
    assert InUse(s) && Unshared(s) && LowUnused(s);
    assert NoLeak(s);
  }

  // ---- runs of the builder ----

  ghost predicate Run(ms: seq<Image>, ops: seq<Op>) {
    && |ms| == |ops| + 1 && ms[0] == Empty()
    && forall i | 0 <= i < |ops| :: Fits(ms[i], ops[i]) && ms[i + 1] == Put(ms[i], ops[i]).1
  }

  lemma {:induction false} RunSound(ms: seq<Image>, ops: seq<Op>, k: nat)
    requires Run(ms, ops) && k <= |ops|
    ensures Sound(ms[k])
  {
    hide Sound, Put, Fits;
    if k == 0 {
      EmptySound();
    } else {
      RunSound(ms, ops, k - 1);
      var p := Put(ms[k - 1], ops[k - 1]);
      PutKeeps(ms[k - 1], ops[k - 1], p.0, p.1);
    }
  }

  lemma {:induction false} RunLater(ms: seq<Image>, ops: seq<Op>, i: nat, k: nat)
    requires Run(ms, ops) && i <= k <= |ops|
    ensures Later(ms[i], ms[k])
  {
    hide Sound, Put, Fits, Slots;
    RunSound(ms, ops, i);
    if i == k {
      LaterSelf(ms[i]);
    } else {
      RunLater(ms, ops, i, k - 1);
      RunSound(ms, ops, k - 1);
      var p := Put(ms[k - 1], ops[k - 1]);
      PutKeeps(ms[k - 1], ops[k - 1], p.0, p.1);
      LaterTrans(ms[i], ms[k - 1], ms[k]);
    }
  }

  /**
   Every set of files that fits the disk: at the end each file added on the way is listed in
   its directory and holds exactly its bytes.
   */
  lemma RunHolds(ms: seq<Image>, ops: seq<Op>, i: nat, k: nat)
    requires Run(ms, ops) && i < k <= |ops|
    ensures var f := Put(ms[i], ops[i]).0;
      Listed(ms[k], ops[i].dir, f) && (ops[i].PutFile? ==> Holds(ms[k], f, ops[i].bytes))
  {
    hide Sound, Put, Fits, Later, Listed, Holds;
    var p := Put(ms[i], ops[i]);
    RunSound(ms, ops, i);
    PutKeeps(ms[i], ops[i], p.0, p.1);
    RunLater(ms, ops, i + 1, k);
    LaterListed(ms[i + 1], ms[k], ops[i].dir, p.0);
    if ops[i].PutFile? { LaterHolds(ms[i + 1], ms[k], p.0, ops[i].bytes); }
  }

  // ---- the server reads what the builder wrote ----

  lemma {:induction false} ChunkCount(bytes: Bytes)
    ensures |Chunks(bytes)| == Blocks(|bytes|)
    decreases |bytes|
  {
    if |bytes| > BLOCK_SIZE {
      ChunkCount(bytes[BLOCK_SIZE..]);
      assert Blocks(|bytes|) == Blocks(|bytes| - BLOCK_SIZE) + 1;
    }
  }

  /** Reading a file block after block, through the server's slots. */
  ghost function ReadFrom(m: Image, f: nat, k: nat, n: nat): Bytes
    decreases n - k
  {
    if k >= n then []
    else
      var b := Slots(m, SlotOf(f, k));
      (if b < |m.blocks| && m.blocks[b].Data? then m.blocks[b].bytes else []) + ReadFrom(m, f, k + 1, n)
  }

  ghost function Concat(chunks: seq<Bytes>): Bytes {
    if chunks == [] then [] else chunks[0] + Concat(chunks[1..])
  }

  lemma {:induction false} ChunksConcat(bytes: Bytes)
    ensures Concat(Chunks(bytes)) == bytes
    decreases |bytes|
  {
    if |bytes| > BLOCK_SIZE {
      ChunksConcat(bytes[BLOCK_SIZE..]);
      assert Chunks(bytes)[1..] == Chunks(bytes[BLOCK_SIZE..]);
    } else if bytes != [] {
      assert Chunks(bytes)[1..] == [];
      assert Concat([bytes]) == bytes + Concat([bytes][1..]);
    }
  }

  lemma {:induction false} ReadChunks(m: Image, f: nat, k: nat, chunks: seq<Bytes>)
    requires Stored(m, f, 0, chunks) && k <= |chunks|
    ensures ReadFrom(m, f, k, |chunks|) == Concat(chunks[k..])
    decreases |chunks| - k
  {
    hide Slots, SlotOf;
    if k < |chunks| {
      assert Slots(m, SlotOf(f, 0 + k)) == Slots(m, SlotOf(f, k));
      ReadChunks(m, f, k + 1, chunks);
      assert chunks[k..][1..] == chunks[k + 1..];
    }
  }

  /** Reading back all blocks the recorded size calls for gives the file's bytes. */
  lemma ReadBack(m: Image, f: nat, bytes: Bytes)
    requires Holds(m, f, bytes)
    ensures ReadFrom(m, f, 0, Blocks(m.files[f].size)) == bytes
  {
    ChunkCount(bytes);
    ChunksConcat(bytes);
    ReadChunks(m, f, 0, Chunks(bytes));
    assert Chunks(bytes)[0..] == Chunks(bytes);
  }

  /**
   The server's file_map_block on the image, with any part of it cached: block `k` of the
   file is found in the block the builder wrote chunk `k` into, or there is no page left to
   read the index block. It never panics.
   */
  lemma ServerFinds(m: Image, f: nat, bytes: Bytes, k: nat, cached: set<nat>, pages: nat)
    requires Sound(m) && Holds(m, f, bytes) && k < |Chunks(bytes)|
    ensures var s := Disk(m).(cached := cached, pages := pages);
      var r := FileMapBlock(s, f, k, false).0;
      if k < NDIRECT || m.files[f].indirect in cached || pages > 0
      then r.Ok? && r.value < |m.blocks| && m.blocks[r.value] == Data(Chunks(bytes)[k])
      else r == Err(NoMem)
  {
    var s := Disk(m).(cached := cached, pages := pages);
    hide FsBlocks.Inv, Chunks;
    assert forall x: Slot :: At(s, x) == Slots(m, x);
    assert Slots(m, SlotOf(f, 0 + k)) == Slots(m, SlotOf(f, k)) != 0;
    if k >= NDIRECT {
      assert Slots(m, Ind(f)) == m.files[f].indirect != 0;
      SameDiskInv(Disk(m), s);
      IndirectReadable(s, f);
    }
    hide At;
  }

  /** The built disk is sound for the server, and no file has blocks past its size. */
  lemma BuiltIsSound(m: Image, f: nat, bytes: Bytes, newsize: nat)
    requires Sound(m) && Holds(m, f, bytes)
    ensures FsBlocks.Inv(Disk(m)) && NoTail(Disk(m), f, newsize)
  {
    ChunkCount(bytes);
    var s := Disk(m);
    forall i: nat | Blocks(s.files[f].size) <= i
      ensures At(s, Entry(f, i)) == 0
    {
      if i < NDIRECT {
        assert LowUnused(s);
      } else if i < NINDIRECT {
        assert Slots(m, SlotOf(f, i)) == At(s, Entry(f, i));
      }
    }
  }
}

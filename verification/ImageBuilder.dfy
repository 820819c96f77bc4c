/**
 tools/fsformat.c as it is written: global tables filled in place. Each method is tied to a
 function of module Fsformat, and the bitmap it leaves is the one the server starts from.
 */
module ImageBuilder {
  import opened FsBlocks
  import opened Fsformat
  import Bitmap

  /** The bitmap after init_disk: a one for each of the NBLOCK blocks, zeros behind. */
  function FreshBitmap(): (w: seq<bv32>)
    ensures |w| == BITMAP_WORDS
    ensures forall i :: 0 <= i < BITMAP_WORDS ==> w[i] == if i < NBLOCK / 32 then 0xffff_ffff else 0
  {
    seq(BITMAP_WORDS, i => if i < NBLOCK / 32 then 0xffff_ffff else 0)
  }

  lemma OnesTest(m: bv32)
    ensures 0xffff_ffff & m == m
    ensures 0 & m == 0
  {
  }

  lemma FreshBits(i: nat)
    requires i < 32 * BITMAP_WORDS
    ensures Bitmap.Get(FreshBitmap(), i) <==> i < NBLOCK
  {
    hide Bitmap.Mask;
    Bitmap.MaskFacts(i % 32, i % 32);
    OnesTest(Bitmap.Mask(i % 32));
  }

  class Builder {
    var nextbno: nat
    var files: map<nat, File>
    var dirs: set<nat>
    var blocks: seq<Block>
    var bitmap: seq<bv32>

    ghost function Img(): Image
      reads this
    {
      Image(nextbno, files, dirs, blocks)
    }

    /** init_disk */
    constructor ()
      ensures Img() == Empty() && Sound(Img()) && bitmap == FreshBitmap()
    {
      nextbno := 2 + (NBLOCK + 8 * BLOCK_SIZE - 1) / (8 * BLOCK_SIZE);
      files, dirs := map[ROOT := NewFile(0)], {ROOT};
      blocks := seq(NBLOCK, _ => Unused);
      bitmap := FreshBitmap();
      new;
      EmptySound();
      assert blocks == Empty().blocks;
    }

    method NextBlock(b: Block) returns (bno: nat)
      requires nextbno < |blocks|
      modifies this`nextbno, this`blocks
      ensures bno == old(nextbno) && Img() == Fsformat.NextBlock(old(Img()), b)
    {
      blocks := blocks[nextbno := b];
      bno := nextbno;
      nextbno := nextbno + 1;
    }

    /** save_block_link; the index block is taken when the first block past the tenth is linked. */
    method SaveBlockLink(f: nat, n: nat, bno: nat)
      requires Linkable(Img(), f, n)
      modifies this`nextbno, this`blocks, this`files
      ensures Img() == SaveLink(old(Img()), f, n, bno)
    {
      if n < NDIRECT {
        files := files[f := files[f].(direct := files[f].direct[n := bno])];
      } else {
        if files[f].indirect == 0 {
          var t := NextBlock(Index(ZeroIndex()));
          files := files[f := files[f].(indirect := t)];
        }
        var t := files[f].indirect;
        var words: seq<nat> := blocks[t].words[n := bno];
        blocks := blocks[t := Index(words)];
      }
    }

    method MakeLinkBlock(dir: nat, n: nat) returns (bno: nat)
      requires CanAppend(Img(), dir, n)
      modifies this`nextbno, this`blocks, this`files
      ensures bno == old(nextbno) && Img() == Grow(old(Img()), dir, n)
    {
      bno := NextBlock(Records);
      SaveBlockLink(dir, n, bno);
      files := files[dir := files[dir].(size := files[dir].size + BLOCK_SIZE)];
    }

    /** create_file: scans the directory's blocks for an unused record, then grows it. */
    method CreateFile(dir: nat) returns (f: nat)
      requires Sound(Img()) && dir in dirs && nextbno + CreateCost(Img(), dir) <= NBLOCK
      modifies this`nextbno, this`blocks, this`files
      ensures Sound(Img()) && Later(old(Img()), Img()) && f !in files && SpotIn(Img(), dir, f)
      ensures CreateCost(old(Img()), dir) == 0 || CanAppend(old(Img()), dir, DirBlocks(old(Img()), dir))
      ensures (f, Img()) == Fsformat.CreateFile(old(Img()), dir)
      ensures dir in dirs && f < FILE2BLK * nextbno && nextbno == old(nextbno) + CreateCost(old(Img()), dir)
    {
      hide Sound, Later, SpotIn, CanAppend, Grow, Scan;
      ghost var m := Img();
      CreateFileKeeps(m, dir, 0, m);
      SoundInv(m);
      ghost var p := Fsformat.CreateFile(m, dir);
      CreateFileKeeps(m, dir, p.0, p.1);
      var spare := FindSpare(dir);
      if spare.Spare? {
        return spare.record;
      }
      var bno := MakeLinkBlock(dir, files[dir].size / BLOCK_SIZE);
      return FILE2BLK * bno;
    }

    /** The scan of create_file. */
    method FindSpare(dir: nat) returns (r: Found)
      requires Sound(Img()) && dir in dirs && dir in files
      ensures r == Scan(Img(), dir, 0, DirBlocks(Img(), dir))
    {
      hide Fsformat.Inv, Slots, SlotOf, UnusedFrom, Shaped;
      var nblk := files[dir].size / BLOCK_SIZE;
      var i := 0;
      while i < nblk
        invariant 0 <= i <= nblk
        invariant Scan(Img(), dir, 0, nblk) == Scan(Img(), dir, i, nblk)
      {
        LinkReadable(Img(), dir, i);
        var bno := ReadLink(dir, i);
        var j := FirstUnused(bno);
        if j < FILE2BLK {
          return Spare(FILE2BLK * bno + j);
        }
        i := i + 1;
      }
      return Nowhere;
    }

    method FirstUnused(bno: nat) returns (j: nat)
      ensures j == UnusedFrom(Img(), bno, 0)
    {
      j := 0;
      while j < FILE2BLK && FILE2BLK * bno + j in files
        invariant 0 <= j <= FILE2BLK
        invariant UnusedFrom(Img(), bno, 0) == UnusedFrom(Img(), bno, j)
      {
        j := j + 1;
      }
    }

    /** The block number of block `i` of a directory. */
    method ReadLink(dir: nat, i: nat) returns (bno: nat)
      requires Fsformat.Inv(Img()) && dir in files && i < NINDIRECT && (i < NDIRECT || files[dir].indirect != 0)
      ensures bno == Slots(Img(), SlotOf(dir, i))
    {
      IndirectBelow(Img(), dir);
      if i < NDIRECT {
        return files[dir].direct[i];
      }
      return blocks[files[dir].indirect].words[i];
    }

    /** write_file: the new record holds the bytes, in its directory; all that was written stays. */
    method WriteFile(dir: nat, bytes: Bytes) returns (f: nat)
      requires Sound(Img()) && Fits(Img(), PutFile(dir, bytes))
      modifies this`nextbno, this`blocks, this`files
      ensures Sound(Img()) && Later(old(Img()), Img()) && Listed(Img(), dir, f) && Holds(Img(), f, bytes)
      ensures (f, Img()) == Put(old(Img()), PutFile(dir, bytes))
    {
      hide FsBlocks.Inv, CanAppend, Append, Slots, Scan, Sound;
      ghost var m := Img();
      ghost var p := Put(m, PutFile(dir, bytes));
      PutKeeps(m, PutFile(dir, bytes), p.0, p.1);
      f := CreateFile(dir);
      ghost var m1 := Img();
      files := files[f := NewFile(|bytes|)];
      SoundInv(m1);
      AddRecordKeeps(m1, Img(), f, |bytes|, false);
      assert bytes[0..] == bytes;
      FillFile(f, bytes, p.1);
    }

    /** The reading loop of write_file. */
    method FillFile(f: nat, bytes: Bytes, ghost target: Image)
      requires Fsformat.Inv(Img()) && f in files && Shaped(Img(), f, 0)
      requires target == WriteFrom(Img(), f, 0, Chunks(bytes))
      requires nextbno + ChunkCost(0, |Chunks(bytes)|) <= NBLOCK
      modifies this`nextbno, this`blocks, this`files
      ensures Img() == target
    {
      hide Fsformat.Inv, CanAppend, Shaped, SaveLink, Fsformat.NextBlock;
      var iblk, pos := 0, 0;
      assert bytes[0..] == bytes;
      while pos < |bytes|
        invariant pos <= |bytes| && Fsformat.Inv(Img()) && f in files && Shaped(Img(), f, iblk)
        invariant target == WriteFrom(Img(), f, iblk, Chunks(bytes[pos..]))
        invariant iblk + |Chunks(bytes[pos..])| <= NINDIRECT
        invariant nextbno + ChunkCost(iblk, |Chunks(bytes[pos..])|) <= NBLOCK
      {
        var n := if |bytes| - pos < BLOCK_SIZE then |bytes| - pos else BLOCK_SIZE;
        FirstChunk(bytes, pos, n);
        ghost var m := Img();
        RoomToAppend(m, f, iblk, |Chunks(bytes[pos..])|);
        ChunkKeeps(m, Append(m, f, iblk, Data(bytes[pos..pos + n])), f, iblk, bytes[pos..pos + n]);
        assert f in Append(m, f, iblk, Data(bytes[pos..pos + n])).files;
        AppendOne(f, iblk, Data(bytes[pos..pos + n]));
        iblk, pos := iblk + 1, pos + n;
      }
      assert bytes[pos..] == [];
    }

    method AppendOne(f: nat, n: nat, b: Block)
      requires CanAppend(Img(), f, n)
      modifies this`nextbno, this`blocks, this`files
      ensures Img() == Append(old(Img()), f, n, b)
    {
      var bno := NextBlock(b);
      SaveBlockLink(f, n, bno);
    }

    /** write_directory up to the reading of its entries. */
    method MakeDirectory(dir: nat) returns (f: nat)
      requires Sound(Img()) && Fits(Img(), PutDir(dir))
      modifies this`nextbno, this`blocks, this`files, this`dirs
      ensures Sound(Img()) && Later(old(Img()), Img()) && Listed(Img(), dir, f) && f in dirs
      ensures (f, Img()) == Put(old(Img()), PutDir(dir))
    {
      hide FsBlocks.Inv, CanAppend, Append, Slots, Scan, Sound;
      ghost var p := Put(Img(), PutDir(dir));
      PutKeeps(Img(), PutDir(dir), p.0, p.1);
      f := CreateFile(dir);
      files, dirs := files[f := NewFile(0)], dirs + {f};
    }

    /** flush_bitmap: the bits left are exactly those of the blocks not handed out. */
    method FlushBitmap()
      requires bitmap == FreshBitmap() && nextbno <= NBLOCK
      modifies this`bitmap
      ensures |bitmap| == BITMAP_WORDS
      ensures forall i: nat | i < 32 * BITMAP_WORDS :: Bitmap.Get(bitmap, i) <==> nextbno <= i < NBLOCK
      ensures Bitmap.Bits(bitmap, NBLOCK) == Disk(Img()).free
    {
      hide Bitmap.Get, Bitmap.Clear;
      forall k: nat | k < 32 * BITMAP_WORDS
        ensures Bitmap.Get(bitmap, k) <==> 0 <= k < NBLOCK
      {
        FreshBits(k);
      }
      var i := 0;
      while i < nextbno
        invariant i <= nextbno && |bitmap| == BITMAP_WORDS
        invariant forall k: nat | k < 32 * BITMAP_WORDS :: Bitmap.Get(bitmap, k) <==> i <= k < NBLOCK
      {
        ghost var w := bitmap;
        bitmap := Bitmap.Clear(bitmap, i);
        Bitmap.ClearLength(w, i);
        forall k: nat | k < 32 * BITMAP_WORDS
          ensures Bitmap.Get(bitmap, k) <==> i + 1 <= k < NBLOCK
        {
          Bitmap.ClearWrites(w, i, k);
        }
        i := i + 1;
      }
    }
  }

  lemma LinkReadable(m: Image, dir: nat, i: nat)
    requires Sound(m) && dir in m.dirs && dir in m.files && i < DirBlocks(m, dir)
    ensures i < NINDIRECT && (i < NDIRECT || m.files[dir].indirect != 0)
  {
    assert Slots(m, Ind(dir)) == m.files[dir].indirect;
  }

  /** What one turn of the reading loop takes. */
  lemma FirstChunk(bytes: Bytes, pos: nat, n: nat)
    requires pos < |bytes| && n == if |bytes| - pos < BLOCK_SIZE then |bytes| - pos else BLOCK_SIZE
    ensures Chunks(bytes[pos..]) == [bytes[pos..pos + n]] + Chunks(bytes[pos + n..])
  {
    var rest := bytes[pos..];
    assert rest[n..] == bytes[pos + n..];
    assert rest[..n] == bytes[pos..pos + n];
    if |rest| <= BLOCK_SIZE {
      assert n == |rest| && rest[..n] == rest && rest[n..] == [];
    }
  }
}

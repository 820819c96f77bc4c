/**
 The block layer of fs/fs.c as it is written: an object whose bitmap words, file records
 and index blocks are updated in place, each method tied to a function of FsBlocks.
 */
module FileServer {
  import opened FsBlocks
  import Bitmap

  class Server {
    var bitmap: seq<bv32>
    var files: map<nat, File>
    var index: seq<seq<nat>>
    var cached: set<nat>
    var pages: nat
    const nblocks: nat
    const reserved: nat

    ghost predicate Valid()
      reads this
    {
      nblocks <= 32 * |bitmap| && 3 <= nblocks == |index|
    }

    ghost function Abs(): Fs
      requires Valid()
      reads this
    {
      Fs(reserved, Bitmap.Bits(bitmap, nblocks), files, index, cached, pages)
    }

    /** A server over a disk of `nblocks` blocks whose bitmap has just been read. */
    constructor (nblocks: nat, reserved: nat, bitmap: seq<bv32>, files: map<nat, File>, index: seq<seq<nat>>,
                 pages: nat)
      requires 3 <= nblocks == |index| && nblocks <= 32 * |bitmap|
      ensures Valid() && Abs() == Fs(reserved, Bitmap.Bits(bitmap, nblocks), files, index, {}, pages)
    {
      this.nblocks, this.reserved, this.bitmap := nblocks, reserved, bitmap;
      this.files, this.index, this.cached, this.pages := files, index, {}, pages;
    }

    method BlockIsFree(b: nat) returns (r: bool)
      requires Valid()
      ensures r <==> b < nblocks && Abs().free[b]
    {
      if b >= nblocks {
        return false;
      }
      return Bitmap.Test(bitmap[b / 32], Bitmap.Mask(b % 32));
    }

    method FreeBlock(b: nat)
      requires Valid()
      modifies this`bitmap
      ensures Valid() && Abs() == FsBlocks.FreeBlock(old(Abs()), b)
    {
      if b == 0 || b >= nblocks {
        return;
      }
      Bitmap.SetBits(bitmap, b, nblocks);
      bitmap := Bitmap.Set(bitmap, b);
    }

    /** alloc_block_num: the first free block from 3 on is marked in use. */
    method AllocBlockNum() returns (r: Result)
      requires Valid()
      modifies this`bitmap
      ensures Valid()
      ensures var b := FirstFree(old(Abs()).free, 3);
        if b == nblocks then r == Err(NoDisk) && Abs() == old(Abs())
        else r == Ok(b) && Abs() == old(Abs()).(free := old(Abs()).free[b := false])
    {
      var b := 3;
      while b < nblocks
        invariant 3 <= b <= nblocks && bitmap == old(bitmap)
        invariant FirstFree(old(Abs()).free, 3) == FirstFree(old(Abs()).free, b)
      {
        if Bitmap.Get(bitmap, b) {
          Bitmap.SetBits(bitmap, b, nblocks);
          bitmap := Bitmap.Clear(bitmap, b);
          return Ok(b);
        }
        b := b + 1;
      }
      return Err(NoDisk);
    }

    method AllocBlock() returns (r: Result)
      requires Valid()
      modifies this
      ensures Valid() && (r, Abs()) == FsBlocks.AllocBlock(old(Abs()))
    {
      r := AllocBlockNum();
      if !r.Ok? {
        return;
      }
      var b := r.value;
      if b in cached {
        return;
      }
      if pages == 0 {
        FreeBlock(b);
        return Err(NoMem);
      }
      pages := pages - 1;
      cached := cached + {b};
      index := index[b := ZeroIndex()];
    }

    method ReadBlock(b: nat) returns (r: Result)
      requires Valid()
      modifies this
      ensures Valid() && (r, Abs()) == FsBlocks.ReadBlock(old(Abs()), b)
    {
      if b >= nblocks {
        return Panic;
      }
      var isFree := BlockIsFree(b);
      if isFree {
        return Panic;
      }
      if b !in cached {
        if pages == 0 {
          return Err(NoMem);
        }
        pages := pages - 1;
        cached := cached + {b};
      }
      return Ok(b);
    }

    method FileBlockWalk(f: nat, n: nat, alloc: bool) returns (r: Result)
      requires Valid() && f in files
      modifies this
      ensures Valid() && (r, Abs()) == FsBlocks.FileBlockWalk(old(Abs()), f, n, alloc)
      ensures files.Keys == old(files.Keys)
    {
      if n < NDIRECT {
        return Ok(0);
      }
      if n >= NINDIRECT {
        return Err(Inval);
      }
      if files[f].indirect == 0 {
        if !alloc {
          return Err(NotFound);
        }
        r := AllocBlock();
        if !r.Ok? {
          return;
        }
        files := files[f := files[f].(indirect := r.value)];
      }
      r := ReadBlock(files[f].indirect);
    }

    method FileMapBlock(f: nat, n: nat, alloc: bool) returns (r: Result)
      requires Valid() && f in files
      modifies this
      ensures Valid() && (r, Abs()) == FsBlocks.FileMapBlock(old(Abs()), f, n, alloc)
    {
      r := FileBlockWalk(f, n, alloc);
      if !r.Ok? {
        return;
      }
      var x := SlotOf(f, n);
      var cur := ReadSlot(x);
      if cur != 0 {
        return Ok(cur);
      }
      if !alloc {
        return Err(NotFound);
      }
      r := AllocBlock();
      if !r.Ok? {
        return;
      }
      var ok := Store(x, r.value);
      if !ok {
        return Panic;
      }
    }

    method FileClearBlock(f: nat, n: nat) returns (r: Result)
      requires Valid() && f in files
      modifies this
      ensures Valid() && (r, Abs()) == FsBlocks.FileClearBlock(old(Abs()), f, n)
      ensures files.Keys == old(files.Keys) && files[f].size == old(files[f].size)
    {
      r := FileBlockWalk(f, n, false);
      if !r.Ok? {
        return;
      }
      var x := SlotOf(f, n);
      var cur := ReadSlot(x);
      if cur != 0 && CanWrite(Fs(0, [], files, index, {}, 0), x) {
        FreeBlock(cur);
        var _ := Store(x, 0);
      }
      return Ok(0);
    }

    method ReadSlot(x: Slot) returns (b: nat)
      requires Valid()
      ensures b == At(Abs(), x)
    {
      b := At(Fs(0, [], files, index, {}, 0), x);
    }

    method Store(x: Slot, b: nat) returns (ok: bool)
      requires Valid() && x.f in files && !x.Ind?
      modifies this`files, this`index
      ensures Valid() && ok == CanWrite(old(Abs()), x)
      ensures Abs() == if ok then WriteSlot(old(Abs()), x, b) else old(Abs())
      ensures files.Keys == old(files.Keys) && files[x.f].size == old(files[x.f].size)
    {
      match x {
        case Direct(f, i) =>
          if i >= |files[f].direct| {
            return false;
          }
          files := files[f := files[f].(direct := files[f].direct[i := b])];
        case Entry(f, i) =>
          var t := files[f].indirect;
          if t >= |index| || i >= |index[t]| {
            return false;
          }
          var row: seq<nat> := index[t][i := b];
          index := index[t := row];
      }
      return true;
    }

    /** file_truncate; `false` is the panic of a failed file_clear_block. */
    method FileTruncate(f: nat, newsize: nat) returns (ok: bool)
      requires Valid() && f in files
      modifies this
      ensures Valid() && (ok, Abs()) == FsBlocks.FileTruncate(old(Abs()), f, newsize)
    {
      hide ClearRange, Bitmap.Bits;
      var oldBlocks := Blocks(files[f].size);
      var newBlocks := Blocks(newsize);
      ok := ClearBlocks(f, newBlocks, oldBlocks);
      if !ok {
        return;
      }
      if newBlocks <= NDIRECT && files[f].indirect != 0 {
        FreeBlock(files[f].indirect);
        files := files[f := files[f].(indirect := 0)];
      }
      files := files[f := files[f].(size := newsize)];
    }

    /** The clearing loop of file_truncate. */
    method ClearBlocks(f: nat, lo: nat, hi: nat) returns (ok: bool)
      requires Valid() && f in files
      modifies this
      ensures Valid() && f in files && (ok, Abs()) == ClearRange(old(Abs()), f, lo, hi)
    {
      hide Bitmap.Bits, FsBlocks.FileClearBlock;
      var bno := lo;
      while bno < hi
        invariant Valid() && f in files && lo <= bno
        invariant ClearRange(old(Abs()), f, lo, hi) == ClearRange(Abs(), f, bno, hi)
        decreases hi - bno
      {
        var r := FileClearBlock(f, bno);
        if !r.Ok? {
          return false;
        }
        bno := bno + 1;
      }
      return true;
    }
  }
}

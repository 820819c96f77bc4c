/**
 The directories that tools/fsformat.c builds, as the server's path walk (module FsPath) sees
 them: every file and directory written is reached by its path.
 */
module ImagePaths {
  import B = FsBlocks
  import opened Fsformat
  import P = FsPath
  import opened Wrappers

  // ---- the image as a tree of records ----

  /** The records of directory block `bno`. */
  function RecordIds(bno: nat): (r: seq<nat>)
    ensures |r| == FILE2BLK && forall j :: 0 <= j < FILE2BLK ==> r[j] == FILE2BLK * bno + j
  {
    seq(FILE2BLK, j requires 0 <= j => FILE2BLK * bno + j)
  }

  function BlockAt(m: Image, d: nat, k: nat): P.DirBlock { P.Block(RecordIds(Slots(m, B.SlotOf(d, k)))) }

  function BlocksOf(m: Image, d: nat): (r: seq<P.DirBlock>)
    requires d in m.files
    ensures |r| == DirBlocks(m, d) && forall k :: 0 <= k < |r| ==> r[k] == BlockAt(m, d, k)
  {
    seq(DirBlocks(m, d), k requires 0 <= k => BlockAt(m, d, k))
  }

  function RecordOf(m: Image, names: map<nat, string>, id: nat): P.File {
    P.File(if id in names then names[id] else "",
           if id in m.dirs then P.Dir else P.Reg,
           if id in m.dirs && id in m.files then BlocksOf(m, id) else [])
  }

  /** All records of blocks handed out so far; those without a name are unused. */
  function TreeOf(m: Image, names: map<nat, string>): P.Tree {
    map id: nat | id < FILE2BLK * m.next :: RecordOf(m, names, id)
  }

  lemma TreeAt(m: Image, names: map<nat, string>, id: nat)
    ensures id in TreeOf(m, names) <==> id < FILE2BLK * m.next
    ensures id in TreeOf(m, names) ==> TreeOf(m, names)[id] == RecordOf(m, names, id)
  {
  }

  /** A record of a block handed out is unused exactly if it has no name. */
  lemma UnusedRecord(m: Image, names: map<nat, string>, id: nat)
    requires Named(m, names) && id < FILE2BLK * m.next
    ensures id in TreeOf(m, names) && (TreeOf(m, names)[id].name == "" <==> id !in m.files)
  {
    TreeAt(m, names, id);
  }

  /** Exactly the records in use have names. */
  predicate Named(m: Image, names: map<nat, string>) {
    names.Keys == m.files.Keys && forall f :: f in names ==> names[f] != ""
  }

  // ---- the tree is well formed ----

  lemma RecordBlock(bno: nat, j: nat)
    requires j < FILE2BLK
    ensures (FILE2BLK * bno + j) / FILE2BLK == bno && (FILE2BLK * bno + j) % FILE2BLK == j
  {
  }

  /** What a place of a directory says about the record in it. */
  lemma HeldRecord(m: Image, names: map<nat, string>, dir: nat, b: nat, j: nat, id: nat)
    requires Sound(m) && P.Holds(TreeOf(m, names), dir, b, j, id)
    ensures dir in m.dirs && dir in m.files && b < DirBlocks(m, dir) && j == id % FILE2BLK
    ensures Slots(m, B.SlotOf(dir, b)) == id / FILE2BLK && FIRST <= id / FILE2BLK < m.next
  {
    SoundInv(m);
    TreeAt(m, names, dir);
    hide Sound, Slots, TreeOf;
    var bno := Slots(m, B.SlotOf(dir, b));
    assert id == FILE2BLK * bno + j;
    RecordBlock(bno, j);
    SlotBelow(m, B.SlotOf(dir, b));
    DirSlots(m, dir, b);
  }

  lemma DirSlots(m: Image, dir: nat, k: nat)
    requires Sound(m) && dir in m.dirs && k < DirBlocks(m, dir)
    ensures Slots(m, B.SlotOf(dir, k)) >= FIRST
  {
    assert Shaped(m, dir, DirBlocks(m, dir));
    assert B.InUse(Disk(m));
  }

  /** No block belongs to two places. */
  lemma SlotOwner(m: Image, d: nat, k: nat, d': nat, k': nat)
    requires Sound(m) && d in m.dirs && d' in m.dirs && k < DirBlocks(m, d) && k' < DirBlocks(m, d')
    requires Slots(m, B.SlotOf(d, k)) == Slots(m, B.SlotOf(d', k'))
    ensures d == d' && k == k'
  {
    DirSlots(m, d, k);
    assert B.Unshared(Disk(m));
    assert B.SlotOf(d, k) == B.SlotOf(d', k');
  }

  lemma TreePlaces(m: Image, names: map<nat, string>)
    requires Sound(m) && Named(m, names)
    ensures var t := TreeOf(m, names);
      && P.ROOT in t && t[P.ROOT].kind == P.Dir
      && (forall dir: nat, b: nat, j: nat, id: nat :: P.Holds(t, dir, b, j, id) ==> id in t && id != P.ROOT)
      && (forall dir: nat, b: nat, j: nat, dir': nat, b': nat, j': nat, id: nat ::
            P.Holds(t, dir, b, j, id) && P.Holds(t, dir', b', j', id) ==> dir == dir' && b == b' && j == j')
      && (forall id :: id in t && t[id].name == "" && id != P.ROOT ==> t[id].blocks == [])
  {
    var t := TreeOf(m, names);
    assert m.dirs <= m.files.Keys && ROOT in m.dirs && FIRST <= m.next;
    hide Sound, Slots, TreeOf;
    TreeAt(m, names, P.ROOT);
    forall dir: nat, b: nat, j: nat, id: nat | P.Holds(t, dir, b, j, id)
      ensures id in t && id != P.ROOT
    {
      HeldRecord(m, names, dir, b, j, id);
      TreeAt(m, names, id);
    }
    forall id: nat | id in t && t[id].name == "" && id != P.ROOT
      ensures t[id].blocks == []
    {
      TreeAt(m, names, id);
    }
    forall dir: nat, b: nat, j: nat, dir': nat, b': nat, j': nat, id: nat
      | P.Holds(t, dir, b, j, id) && P.Holds(t, dir', b', j', id)
      ensures dir == dir' && b == b' && j == j'
    {
      HeldRecord(m, names, dir, b, j, id);
      HeldRecord(m, names, dir', b', j', id);
      SlotOwner(m, dir, b, dir', b');
    }
  }

  // ---- the builder's scan is the server's scan ----

  lemma {:induction false} FreeInBlock(m: Image, names: map<nat, string>, bno: nat, j: nat)
    requires Named(m, names) && bno < m.next && j <= FILE2BLK
    ensures P.FreeIn(TreeOf(m, names), RecordIds(bno)[j..]) ==
            var u := UnusedFrom(m, bno, j); if u < FILE2BLK then Some(FILE2BLK * bno + u) else None
    decreases FILE2BLK - j
  {
    hide TreeOf;
    var ids := RecordIds(bno);
    if j < FILE2BLK {
      UnusedRecord(m, names, FILE2BLK * bno + j);
      FreeInBlock(m, names, bno, j + 1);
      assert ids[j..][0] == FILE2BLK * bno + j && ids[j..][1..] == ids[j + 1..];
    }
  }

  lemma {:induction false} FreeInDirectory(m: Image, names: map<nat, string>, d: nat, i: nat)
    requires Sound(m) && Named(m, names) && d in m.dirs && d in m.files && i <= DirBlocks(m, d)
    ensures P.FreeSlot(TreeOf(m, names), BlocksOf(m, d)[i..]) ==
            var r := Scan(m, d, i, DirBlocks(m, d)); if r.Spare? then P.Free(r.record) else P.Full
    decreases DirBlocks(m, d) - i
  {
    hide Sound, Slots, TreeOf;
    var blocks := BlocksOf(m, d);
    if i < |blocks| {
      var bno := Slots(m, B.SlotOf(d, i));
      SoundInv(m);
      SlotBelow(m, B.SlotOf(d, i));
      FreeInBlock(m, names, bno, 0);
      assert RecordIds(bno)[0..] == RecordIds(bno);
      FreeInDirectory(m, names, d, i + 1);
      assert blocks[i..][0] == BlockAt(m, d, i) && blocks[i..][1..] == blocks[i + 1..];
    }
  }

  // ---- one operation ----

  /** What create_file does to the sizes of directories. */
  lemma CreateSizes(m: Image, dir: nat, f: nat, m1: Image)
    requires Sound(m) && dir in m.dirs && dir in m.files && m.next + CreateCost(m, dir) <= NBLOCK
    requires CreateCost(m, dir) == 0 || CanAppend(m, dir, DirBlocks(m, dir))
    requires (f, m1) == CreateFile(m, dir)
    ensures m1.files.Keys == m.files.Keys && m1.dirs == m.dirs
    ensures forall g :: g in m.files && g != dir ==> m1.files[g].size == m.files[g].size
    ensures var n := DirBlocks(m, dir);
      var r := Scan(m, dir, 0, n);
      && (r.Spare? ==> f == r.record && m1 == m)
      && (!r.Spare? ==> f == FILE2BLK * m.next && DirBlocks(m1, dir) == n + 1 && Slots(m1, B.SlotOf(dir, n)) == m.next)
  {
    hide Inv, Slots, CanAppend, Grow, Shaped;
    if !Scan(m, dir, 0, DirBlocks(m, dir)).Spare? {
      GrowFacts(m, m1, dir);
      GrowDir(m, m1, dir, dir);
    }
  }

  /** The image once the record found has been filled in. */
  function Filled(m1: Image, op: Op, f: nat): Image {
    match op
    case PutFile(_, bytes) => WriteFrom(AddRecord(m1, f, |bytes|, false), f, 0, Chunks(bytes))
    case PutDir(_) => AddRecord(m1, f, 0, true)
  }

  /** What filling in the new record does to the others. */
  lemma FillSizes(m1: Image, op: Op, f: nat, m': Image)
    requires Sound(m1) && f !in m1.files && op.dir in m1.files && m1.next + FileCost(op) <= NBLOCK
    requires m' == Filled(m1, op, f)
    ensures m'.files.Keys == m1.files.Keys + {f} && m'.dirs == if op.PutDir? then m1.dirs + {f} else m1.dirs
    ensures forall g :: g in m1.files ==> m'.files[g].size == m1.files[g].size
    ensures forall x: B.Slot :: x.f != f ==> Slots(m', x) == Slots(m1, x)
    ensures m1.next <= m'.next
  {
    SoundInv(m1);
    hide Sound, Inv, Slots, WriteFrom, Chunks, Shaped;
    match op
    case PutFile(_, bytes) =>
      var m2 := AddRecord(m1, f, |bytes|, false);
      AddRecordKeeps(m1, m2, f, |bytes|, false);
      AddFacts(m1, m2, f, |bytes|, false);
      WriteKeeps(m2, m', f, 0, Chunks(bytes));
    case PutDir(_) =>
      AddRecordKeeps(m1, m', f, 0, true);
      AddFacts(m1, m', f, 0, true);
  }

  /** An operation: the record it takes, the names and sizes it leaves alone, the block it may add. */
  ghost predicate Grew(m: Image, op: Op, f: nat, m': Image)
    requires op.dir in m.files
  {
    var n := DirBlocks(m, op.dir);
    var r := Scan(m, op.dir, 0, n);
    && m.next <= m'.next && f !in m.files && op.dir in m'.files && f < FILE2BLK * m'.next
    && m'.files.Keys == m.files.Keys + {f} && m'.dirs == (if op.PutDir? then m.dirs + {f} else m.dirs)
    && (forall d :: d in m.dirs && d != op.dir ==> d in m.files && d in m'.files && DirBlocks(m', d) == DirBlocks(m, d))
    && (forall d, k: nat :: d in m.dirs && d in m.files && k < DirBlocks(m, d) ==>
          Slots(m', B.SlotOf(d, k)) == Slots(m, B.SlotOf(d, k)))
    && (r.Spare? ==> f == r.record && DirBlocks(m', op.dir) == n)
    && (!r.Spare? ==> && f == FILE2BLK * m.next && m.next < m'.next && DirBlocks(m', op.dir) == n + 1
                      && Slots(m', B.SlotOf(op.dir, n)) == m.next)
  }

  lemma PutParts(m: Image, op: Op, f: nat, m': Image) returns (m1: Image)
    requires Sound(m) && Fits(m, op) && (f, m') == Put(m, op)
    ensures CreateCost(m, op.dir) == 0 || CanAppend(m, op.dir, DirBlocks(m, op.dir))
    ensures (f, m1) == CreateFile(m, op.dir) && m' == Filled(m1, op, f)
    ensures Sound(m1) && f !in m1.files && op.dir in m1.files && m1.next + FileCost(op) <= NBLOCK && m.next <= m1.next
  {
    hide Sound, Inv, Slots, CreateFile, Scan, CanAppend, WriteFrom, Chunks, DirBlocks, NeedsIndex;
    CreateFileKeeps(m, op.dir, 0, m);
    var (f1, m2) := CreateFile(m, op.dir);
    CreateFileKeeps(m, op.dir, f1, m2);
    m1 := m2;
    SoundInv(m1);
  }

  lemma PutGrew(m: Image, op: Op, f: nat, m': Image)
    requires Sound(m) && Fits(m, op) && (f, m') == Put(m, op)
    ensures Grew(m, op, f, m')
  {
    FitsFacts(m, op);
    hide Sound, Inv, Slots, CreateFile, Put, Scan, CanAppend, Fits, CreateCost, Filled, DirBlocks, Grew;
    var m1 := PutParts(m, op, f, m');
    PutRecordBelow(m, op, f, m');
    SlotsKept(m, op, f, m');
    SoundInv(m);
    CreateSizes(m, op.dir, f, m1);
    FillSizes(m1, op, f, m');
    GrewFrom(m, op, f, m1, m');
  }

  lemma FitsFacts(m: Image, op: Op)
    requires Fits(m, op)
    ensures op.dir in m.dirs && op.dir in m.files && m.next + CreateCost(m, op.dir) <= NBLOCK
  {
    hide CreateCost;
  }

  lemma GrewFrom(m: Image, op: Op, f: nat, m1: Image, m': Image)
    requires op.dir in m.dirs && op.dir in m.files && m.dirs <= m.files.Keys && f !in m.files
    requires m1.files.Keys == m.files.Keys && m1.dirs == m.dirs && m.next <= m1.next <= m'.next
    requires forall g :: g in m.files && g != op.dir ==> m1.files[g].size == m.files[g].size
    requires var n := DirBlocks(m, op.dir);
      var r := Scan(m, op.dir, 0, n);
      && (r.Spare? ==> f == r.record && m1 == m)
      && (!r.Spare? ==> && f == FILE2BLK * m.next && DirBlocks(m1, op.dir) == n + 1
                        && Slots(m1, B.SlotOf(op.dir, n)) == m.next && m.next < m'.next)
    requires m'.files.Keys == m1.files.Keys + {f} && m'.dirs == if op.PutDir? then m1.dirs + {f} else m1.dirs
    requires forall g :: g in m1.files ==> m'.files[g].size == m1.files[g].size
    requires forall x: B.Slot :: x.f != f ==> Slots(m', x) == Slots(m1, x)
    requires forall d, k: nat :: d in m.dirs && d in m.files && k < DirBlocks(m, d) ==>
               Slots(m', B.SlotOf(d, k)) == Slots(m, B.SlotOf(d, k))
    requires f < FILE2BLK * m'.next
    ensures Grew(m, op, f, m')
  {
    hide Slots, Scan;
    SlotFile(op.dir, DirBlocks(m, op.dir));
  }

  lemma SlotsKept(m: Image, op: Op, f: nat, m': Image)
    requires Sound(m) && Fits(m, op) && (f, m') == Put(m, op)
    ensures f !in m.files
    ensures forall d, k: nat :: d in m.dirs && d in m.files && k < DirBlocks(m, d) ==>
              Slots(m', B.SlotOf(d, k)) == Slots(m, B.SlotOf(d, k))
  {
    PutKeeps(m, op, f, m');
    hide Sound, Inv, Slots, Put, Fits, CreateCost, DirBlocks;
    forall d, k: nat | d in m.dirs && d in m.files && k < DirBlocks(m, d)
      ensures Slots(m', B.SlotOf(d, k)) == Slots(m, B.SlotOf(d, k))
    {
      assert DirGrew(m, m', d);
    }
  }

  lemma PutRecordBelow(m: Image, op: Op, f: nat, m': Image)
    requires Sound(m) && Fits(m, op) && (f, m') == Put(m, op)
    ensures f < FILE2BLK * m'.next && (!Scan(m, op.dir, 0, DirBlocks(m, op.dir)).Spare? ==> m.next < m'.next)
  {
    PutKeeps(m, op, f, m');
    assert f in m'.files;
  }

  // ---- an operation is a creation in the tree ----

  lemma SameBlocks(m: Image, m': Image, d: nat, n: nat)
    requires d in m.files && d in m'.files && n == DirBlocks(m, d) <= DirBlocks(m', d)
    requires forall k: nat :: k < n ==> Slots(m', B.SlotOf(d, k)) == Slots(m, B.SlotOf(d, k))
    ensures BlocksOf(m', d)[..n] == BlocksOf(m, d)
  {
    hide Slots, DirBlocks;
  }

  /** Directories other than the one that got the record do not have it. */
  lemma NotElsewhere(m: Image, names: map<nat, string>, op: Op, f: nat, m': Image, d: nat)
    requires Sound(m) && Fits(m, op) && Grew(m, op, f, m') && d in m.dirs && d in m.files && d != op.dir
    ensures !P.Mentions(BlocksOf(m, d), f)
  {
    if P.Mentions(BlocksOf(m, d), f) {
      var k :| 0 <= k < |BlocksOf(m, d)| && BlocksOf(m, d)[k].Block? && f in BlocksOf(m, d)[k].files;
      var bno := Slots(m, B.SlotOf(d, k));
      var j :| 0 <= j < FILE2BLK && RecordIds(bno)[j] == f;
      RecordBlock(bno, j);
      SoundInv(m);
      SlotBelow(m, B.SlotOf(d, k));
      var r := Scan(m, op.dir, 0, DirBlocks(m, op.dir));
      if r.Spare? {
        var k' : nat :| k' < DirBlocks(m, op.dir) && f / FILE2BLK == Slots(m, B.SlotOf(op.dir, k'));
        SlotOwner(m, d, k, op.dir, k');
      }
    }
  }

  /** Records other than the new one keep name, kind and, but for the directory, blocks. */
  lemma OtherRecords(m: Image, names: map<nat, string>, op: Op, f: nat, m': Image, name: string, id: nat)
    requires Sound(m) && Fits(m, op) && Grew(m, op, f, m') && Named(m, names)
    requires id < FILE2BLK * m.next && id != f
    ensures var t, t' := TreeOf(m, names), TreeOf(m', names[f := name]);
      && id in t && id in t' && t'[id].name == t[id].name && t'[id].kind == t[id].kind
      && (id != op.dir ==> t'[id].blocks == t[id].blocks && !P.Mentions(t[id].blocks, f))
  {
    TreeAt(m, names, id);
    TreeAt(m', names[f := name], id);
    SoundInv(m);
    if id in m.dirs && id != op.dir {
      NotElsewhere(m, names, op, f, m', id);
      SameBlocks(m, m', id, DirBlocks(m, id));
      assert BlocksOf(m', id) == BlocksOf(m, id);
    }
    hide Sound, Slots, Scan, TreeOf, Fits;
  }

  /** The directory: its blocks with an unused record taken, or one block more. */
  lemma GrownDirectory(m: Image, names: map<nat, string>, op: Op, f: nat, m': Image, name: string)
    requires Sound(m) && Fits(m, op) && Grew(m, op, f, m') && Named(m, names) && op.dir < FILE2BLK * m.next
    ensures var t, t' := TreeOf(m, names), TreeOf(m', names[f := name]);
      && op.dir in t && op.dir in t'
      && ((t'[op.dir].blocks == t[op.dir].blocks && P.FreeSlot(t, t[op.dir].blocks) == P.Free(f)) ||
          (f !in t && |t'[op.dir].blocks| == |t[op.dir].blocks| + 1 &&
           t'[op.dir].blocks[..|t[op.dir].blocks|] == t[op.dir].blocks &&
           var b := t'[op.dir].blocks[|t[op.dir].blocks|];
           b.Block? && b.files != [] && b.files[0] == f && P.OthersUnused(t, t', b.files, f)))
  {
    var d, n := op.dir, DirBlocks(m, op.dir);
    var names' := names[f := name];
    TreeAt(m, names, d);
    TreeAt(m', names', d);
    SameBlocks(m, m', d, n);
    if Scan(m, d, 0, n).Spare? {
      FreeInDirectory(m, names, d, 0);
      assert BlocksOf(m, d)[0..] == BlocksOf(m, d);
      assert BlocksOf(m', d) == BlocksOf(m, d);
    } else {
      TreeAt(m, names, f);
      assert BlocksOf(m', d)[n] == P.Block(RecordIds(m.next));
      NewBlockUnused(m, names, f, m', name);
    }
  }

  lemma NewBlockUnused(m: Image, names: map<nat, string>, f: nat, m': Image, name: string)
    requires Sound(m) && Named(m, names) && f == FILE2BLK * m.next && m.next < m'.next
    ensures P.OthersUnused(TreeOf(m, names), TreeOf(m', names[f := name]), RecordIds(m.next), f)
  {
    assert forall g :: g in m.files ==> g < FILE2BLK * m.next;
    hide Sound, TreeOf;
    forall i | 0 <= i < FILE2BLK && RecordIds(m.next)[i] != f
      ensures var id := RecordIds(m.next)[i];
        id !in TreeOf(m, names) && id in TreeOf(m', names[f := name]) && TreeOf(m', names[f := name])[id].name == ""
    {
      TreeAt(m, names, RecordIds(m.next)[i]);
      TreeAt(m', names[f := name], RecordIds(m.next)[i]);
    }
  }

  lemma PutIsCreated(m: Image, names: map<nat, string>, op: Op, f: nat, m': Image, name: string)
    requires Sound(m) && Fits(m, op) && (f, m') == Put(m, op) && Named(m, names) && name != ""
    ensures P.Created(TreeOf(m, names), TreeOf(m', names[f := name]), op.dir, f, name)
  {
    hide Sound, Put, Scan, TreeOf, Slots, Fits, RecordOf, P.FreeSlot, P.OthersUnused, P.Mentions;
    PutGrew(m, op, f, m');
    DirBelow(m, op);
    var names' := names[f := name];
    var t, t' := TreeOf(m, names), TreeOf(m', names');
    GrownDirectory(m, names, op, f, m', name);
    NewRecordNamed(m, names, f, m', name);
    forall id: nat | id in t && id != f
      ensures id in t' && t'[id].name == t[id].name && t'[id].kind == t[id].kind
      ensures id != op.dir ==> t'[id].blocks == t[id].blocks && !P.Mentions(t[id].blocks, f)
    {
      TreeAt(m, names, id);
      OtherRecords(m, names, op, f, m', name, id);
    }
  }

  lemma DirBelow(m: Image, op: Op)
    requires Sound(m) && Fits(m, op)
    ensures op.dir in m.files && op.dir < FILE2BLK * m.next && ROOT in m.files
  {
    hide Inv, CreateCost;
  }

  /** The new record had no name and has the given one now. */
  lemma NewRecordNamed(m: Image, names: map<nat, string>, f: nat, m': Image, name: string)
    requires Named(m, names) && f !in m.files && f < FILE2BLK * m'.next
    ensures var t, t' := TreeOf(m, names), TreeOf(m', names[f := name]);
      f in t' && t'[f].name == name && (f in t ==> t[f].name == "")
  {
    TreeAt(m, names, f);
    TreeAt(m', names[f := name], f);
  }

  // ---- names stay unique ----

  lemma UniqueAfter(t: P.Tree, t': P.Tree, d: nat, f: nat, last: string)
    requires P.Inv(t) && P.Created(t, t', d, f, last) && P.Lookup(t, d, last) == P.Miss
    requires forall id: nat :: id in t' && id !in t && id != f ==> t'[id].name == "" && t'[id].blocks == []
    requires f in t' ==> t'[f].blocks == []
    ensures P.UniqueNames(t')
  {
    forall dir: nat, b: nat, j: nat, id: nat, b': nat, j': nat, id': nat
      | P.Holds(t', dir, b, j, id) && P.Holds(t', dir, b', j', id') && id in t' && id' in t'
      ensures t'[id].name != "" && t'[id].name == t'[id'].name ==> id == id'
    {
      if t'[id].name != "" && t'[id].name == t'[id'].name {
        HeldBefore(t, t', d, f, last, dir, b, j, id);
        HeldBefore(t, t', d, f, last, dir, b', j', id');
        SameName(t, t', d, f, last, dir, b, j, id, b', j', id');
      }
    }
  }

  /** A named record of a directory was there before, or is the new one. */
  lemma HeldBefore(t: P.Tree, t': P.Tree, d: nat, f: nat, last: string, dir: nat, b: nat, j: nat, id: nat)
    requires P.Inv(t) && P.Created(t, t', d, f, last) && P.Holds(t', dir, b, j, id) && id in t' && t'[id].name != ""
    requires forall x: nat :: x in t' && x !in t && x != f ==> t'[x].name == "" && t'[x].blocks == []
    requires f in t' ==> t'[f].blocks == []
    ensures id != f ==> P.Holds(t, dir, b, j, id) && id in t && t[id].name == t'[id].name
    ensures id == f ==> dir == d && t'[id].name == last
  {
    assert dir in t && dir != f;
    if id == f && dir != d {
      assert P.Mentions(t[dir].blocks, f);
    }
  }

  lemma SameName(t: P.Tree, t': P.Tree, d: nat, f: nat, last: string,
                 dir: nat, b: nat, j: nat, id: nat, b': nat, j': nat, id': nat)
    requires P.Inv(t) && d in t && P.Lookup(t, d, last) == P.Miss && id in t' && id' in t'
    requires t'[id].name != "" && t'[id].name == t'[id'].name
    requires id != f ==> P.Holds(t, dir, b, j, id) && id in t && t[id].name == t'[id].name
    requires id' != f ==> P.Holds(t, dir, b', j', id') && id' in t && t[id'].name == t'[id'].name
    requires (id == f ==> dir == d && t'[id].name == last) && (id' == f ==> dir == d && t'[id'].name == last)
    ensures id == id'
  {
    if id == f && id' != f {
      P.MissAll(t, t[d].blocks, last, b', j');
    } else if id != f && id' == f {
      P.MissAll(t, t[d].blocks, last, b, j);
    } else if id != f {
      assert P.UniqueNames(t);
    }
  }

  // ---- paths ----

  /** The image with the name and the path components of every record in use. */
  datatype Built = Built(m: Image, names: map<nat, string>, paths: map<nat, seq<string>>)

  datatype NamedOp = NamedOp(op: Op, name: string)

  function Start(): Built { Built(Empty(), map[ROOT := "/"], map[ROOT := []]) }

  function Tree(b: Built): P.Tree { TreeOf(b.m, b.names) }

  /** A name the server can look up, not yet taken in the directory. */
  ghost predicate FreshName(b: Built, x: NamedOp) {
    && Fits(b.m, x.op) && x.name != "" && |x.name| < P.MAXNAMELEN && '/' !in x.name
    && x.op.dir in Tree(b) && P.Lookup(Tree(b), x.op.dir, x.name) == P.Miss
  }

  function Next(b: Built, x: NamedOp): Built {
    var (f, m') := Put(b.m, x.op);
    var dirPath := if x.op.dir in b.paths then b.paths[x.op.dir] else [];
    Built(m', b.names[f := x.name], b.paths[f := dirPath + [x.name]])
  }

  ghost predicate PathOk(t: P.Tree, parts: seq<string>, f: nat) {
    && P.ROOT in t && Plain(parts)
    && var r := P.Resolve(t, None, P.ROOT, parts); r.Reached? && r.file == f
  }

  ghost predicate Plain(parts: seq<string>) { forall i :: 0 <= i < |parts| ==> parts[i] != "" && '/' !in parts[i] }

  ghost predicate Good(b: Built) {
    && Sound(b.m) && Named(b.m, b.names) && P.Inv(Tree(b)) && b.paths.Keys == b.m.files.Keys
    && forall f :: f in b.paths ==> PathOk(Tree(b), b.paths[f], f)
  }

  lemma StartGood()
    ensures Good(Start())
  {
    EmptySound();
    var b := Start();
    TreePlaces(b.m, b.names);
    TreeAt(b.m, b.names, ROOT);
    assert b.m.files[ROOT].size == 0 && BlocksOf(b.m, ROOT) == [];
    hide Sound;
    forall dir: nat, i: nat, j: nat, id: nat
      ensures !P.Holds(Tree(b), dir, i, j, id)
    {
      TreeAt(b.m, b.names, dir);
    }
  }

  lemma {:induction false} ResolveSnoc(t: P.Tree, dir: Option<nat>, file: nat, parts: seq<string>, d: nat, name: string)
    requires file in t && P.Resolve(t, dir, file, parts).Reached? && P.Resolve(t, dir, file, parts).file == d
    requires d in t && t[d].kind == P.Dir && |name| < P.MAXNAMELEN && P.Lookup(t, d, name) == P.Miss
    ensures P.Resolve(t, dir, file, parts + [name]) == P.Vacant(d, name)
    decreases |parts|
  {
    if parts == [] {
      assert parts + [name] == [name];
    } else {
      var r := P.Lookup(t, file, parts[0]);
      assert (parts + [name])[0] == parts[0] && (parts + [name])[1..] == parts[1..] + [name];
      ResolveSnoc(t, Some(file), r.id, parts[1..], d, name);
    }
  }

  /** The new record is reached by its directory's path and its name. */
  lemma NewPath(t: P.Tree, t': P.Tree, d: nat, f: nat, name: string, dirPath: seq<string>)
    requires P.Inv(t) && P.Created(t, t', d, f, name) && P.Lookup(t, d, name) == P.Miss && t[d].kind == P.Dir
    requires PathOk(t, dirPath, d) && |name| < P.MAXNAMELEN && '/' !in name
    ensures PathOk(t', dirPath + [name], f)
    ensures P.ROOT in t' && P.Resolve(t', None, P.ROOT, dirPath + [name]) == P.Reached(Some(d), f)
  {
    ResolveSnoc(t, None, P.ROOT, dirPath, d, name);
    P.ResolveNew(t, t', d, f, name, None, P.ROOT, dirPath + [name]);
  }

  lemma OldPath(t: P.Tree, t': P.Tree, d: nat, f: nat, name: string, parts: seq<string>, g: nat)
    requires P.Inv(t) && P.Created(t, t', d, f, name) && P.Lookup(t, d, name) == P.Miss && PathOk(t, parts, g)
    ensures PathOk(t', parts, g)
    ensures P.ROOT in t' && P.Resolve(t', None, P.ROOT, parts) == P.Resolve(t, None, P.ROOT, parts)
  {
    P.ResolveStays(t, t', d, f, name, None, P.ROOT, parts);
  }

  /** The tree after an operation, apart from the new record, has nothing new but unused records. */
  lemma NewRecordsBlank(m: Image, names: map<nat, string>, op: Op, f: nat, m': Image, name: string)
    requires Sound(m) && Fits(m, op) && (f, m') == Put(m, op) && Named(m, names)
    ensures var t, t' := TreeOf(m, names), TreeOf(m', names[f := name]);
      && (forall id: nat :: id in t' && id !in t && id != f ==> t'[id].name == "" && t'[id].blocks == [])
      && (f in t' ==> t'[f].blocks == [])
  {
    PutGrew(m, op, f, m');
    NewDirEmpty(m, op, f, m');
    SoundInv(m);
    assert forall g :: g in m.files ==> g < FILE2BLK * m.next;
    var names' := names[f := name];
    var t, t' := TreeOf(m, names), TreeOf(m', names');
    hide Sound, Put, Scan, TreeOf, Slots, Fits;
    TreeAt(m', names', f);
    forall id: nat | id in t' && id !in t && id != f
      ensures t'[id].name == "" && t'[id].blocks == []
    {
      TreeAt(m, names, id);
      TreeAt(m', names', id);
    }
  }

  lemma NewDirEmpty(m: Image, op: Op, f: nat, m': Image)
    requires Sound(m) && Fits(m, op) && (f, m') == Put(m, op)
    ensures f in m'.dirs ==> f in m'.files && DirBlocks(m', f) == 0
  {
    PutGrew(m, op, f, m');
    SoundInv(m);
    var m1 := PutParts(m, op, f, m');
    if op.PutDir? { assert m' == AddRecord(m1, f, 0, true); }
  }

  /** What an operation gives: a sound image, one more name, and a creation in the tree. */
  lemma NextFacts(b: Built, x: NamedOp, f: nat)
    requires Good(b) && FreshName(b, x) && f == Put(b.m, x.op).0
    ensures var b' := Next(b, x);
      && Sound(b'.m) && Named(b'.m, b'.names) && b'.m.files.Keys == b.m.files.Keys + {f} && f !in b.m.files
      && x.op.dir in b.m.files && x.op.dir in Tree(b) && Tree(b)[x.op.dir].kind == P.Dir
      && b'.paths.Keys == b.paths.Keys + {f}
      && P.Created(Tree(b), Tree(b'), x.op.dir, f, x.name)
      && (forall id: nat :: id in Tree(b') && id !in Tree(b) && id != f ==>
            Tree(b')[id].name == "" && Tree(b')[id].blocks == [])
      && (f in Tree(b') ==> Tree(b')[f].blocks == [])
  {
    hide Sound, Put, TreeOf, Slots, Fits, Scan, CreateCost, Listed, Holds, PathOk;
    hide P.Resolve, P.Lookup, P.Created, P.Inv;
    var m' := Next(b, x).m;
    FitsFacts(b.m, x.op);
    PutKeeps(b.m, x.op, f, m');
    PutGrew(b.m, x.op, f, m');
    PutIsCreated(b.m, b.names, x.op, f, m', x.name);
    NewRecordsBlank(b.m, b.names, x.op, f, m', x.name);
    TreeAt(b.m, b.names, x.op.dir);
  }

  lemma NextGood(b: Built, x: NamedOp, f: nat)
    requires Good(b) && FreshName(b, x) && f == Put(b.m, x.op).0
    ensures Good(Next(b, x)) && P.Created(Tree(b), Tree(Next(b, x)), x.op.dir, f, x.name)
    ensures f !in b.m.files && x.op.dir in b.paths && f in Next(b, x).paths
    ensures Next(b, x).paths[f] == b.paths[x.op.dir] + [x.name]
    ensures P.ROOT in Tree(Next(b, x)) &&
            P.Resolve(Tree(Next(b, x)), None, P.ROOT, Next(b, x).paths[f]) == P.Reached(Some(x.op.dir), f)
  {
    hide Sound, Named, Put, Tree, Fits, P.Resolve, P.Lookup, P.Created, P.Inv, PathOk;
    var b', d := Next(b, x), x.op.dir;
    NextFacts(b, x, f);
    TreeInvFrom(b, b', d, f, x.name);
    assert PathOk(Tree(b), b.paths[d], d);
    NewPath(Tree(b), Tree(b'), d, f, x.name, b.paths[d]);
    forall g | g in b'.paths
      ensures PathOk(Tree(b'), b'.paths[g], g)
    {
      if g != f {
        assert PathOk(Tree(b), b.paths[g], g);
        OldPath(Tree(b), Tree(b'), d, f, x.name, b.paths[g], g);
      }
    }
  }

  lemma UniqueTree(m: Image, names: map<nat, string>)
    requires Sound(m) && Named(m, names) && P.UniqueNames(TreeOf(m, names))
    ensures P.Inv(TreeOf(m, names))
  {
    hide Sound, Named, TreeOf, P.Holds, P.UniqueNames;
    TreePlaces(m, names);
  }

  lemma TreeInvFrom(b: Built, b': Built, d: nat, f: nat, name: string)
    requires Sound(b'.m) && Named(b'.m, b'.names) && P.Inv(Tree(b)) && P.Created(Tree(b), Tree(b'), d, f, name)
    requires d in Tree(b) && P.Lookup(Tree(b), d, name) == P.Miss
    requires forall id: nat :: id in Tree(b') && id !in Tree(b) && id != f ==>
               Tree(b')[id].name == "" && Tree(b')[id].blocks == []
    requires f in Tree(b') ==> Tree(b')[f].blocks == []
    ensures P.Inv(Tree(b'))
  {
    hide Sound, Named, TreeOf, P.Created, P.Lookup, P.Inv, P.Holds, P.UniqueNames;
    UniqueAfter(Tree(b), Tree(b'), d, f, name);
    UniqueTree(b'.m, b'.names);
  }

  // ---- path strings ----

  function Join(parts: seq<string>): string { if parts == [] then "" else "/" + parts[0] + Join(parts[1..]) }

  lemma OnePart(c: string, rest: string)
    requires c != "" && '/' !in c && (rest == [] || rest[0] == '/')
    ensures P.Components("/" + c + rest) == [c] + P.Components(rest)
  {
    hide P.Components;
    var p := c + rest;
    assert ("/" + c + rest)[1..] == p;
    P.SkipOne("/" + c + rest);
    assert p[0..] == p && p[0..|c|] == c && p[|c|..] == rest;
    assert forall k :: 0 <= k < |c| ==> p[k] == c[k] && c[k] in c;
    P.FirstComponent(p, 0, |c|);
  }

  lemma {:induction false} JoinComponents(parts: seq<string>)
    requires Plain(parts)
    ensures P.Components(Join(parts)) == parts
  {
    if parts != [] {
      hide P.Components;
      JoinComponents(parts[1..]);
      OnePart(parts[0], Join(parts[1..]));
    }
  }

  // ---- every run ----

  ghost predicate Builds(bs: seq<Built>, xs: seq<NamedOp>) {
    && |bs| == |xs| + 1 && bs[0] == Start()
    && forall i :: 0 <= i < |xs| ==> Stepped(bs[i], xs[i], bs[i + 1])
  }

  ghost predicate Stepped(b: Built, x: NamedOp, b': Built) { FreshName(b, x) && b' == Next(b, x) }

  lemma {:induction false} BuildsGood(bs: seq<Built>, xs: seq<NamedOp>, k: nat)
    requires Builds(bs, xs) && k <= |xs|
    ensures Good(bs[k])
  {
    hide Good, FreshName, Next;
    if k == 0 {
      StartGood();
    } else {
      BuildsGood(bs, xs, k - 1);
      assert Stepped(bs[k - 1], xs[k - 1], bs[k]);
      NextGood(bs[k - 1], xs[k - 1], Put(bs[k - 1].m, xs[k - 1].op).0);
    }
  }

  /** Records and their paths are never given up. */
  lemma {:induction false} PathsStay(bs: seq<Built>, xs: seq<NamedOp>, i: nat, k: nat, f: nat)
    requires Builds(bs, xs) && i <= k <= |xs| && f in bs[i].paths
    ensures f in bs[k].paths && bs[k].paths[f] == bs[i].paths[f] && Later(bs[i].m, bs[k].m)
    decreases k - i
  {
    BuildsGood(bs, xs, i);
    if i == k {
      LaterSelf(bs[i].m);
    } else {
      assert Stepped(bs[i], xs[i], bs[i + 1]);
      var g := Put(bs[i].m, xs[i].op).0;
      NextGood(bs[i], xs[i], g);
      PutKeeps(bs[i].m, xs[i].op, g, bs[i + 1].m);
      hide Good, FreshName, Later, Put;
      PathsStay(bs, xs, i + 1, k, f);
      LaterTrans(bs[i].m, bs[i + 1].m, bs[k].m);
    }
  }

  /**
   The image that any run of the builder makes, as the server reads it: the path of every file
   and directory written on the way leads to its record, and a file's blocks hold its bytes.
   */
  lemma EveryPathResolves(bs: seq<Built>, xs: seq<NamedOp>, i: nat, k: nat)
    requires Builds(bs, xs) && i < k <= |xs|
    ensures var f := Put(bs[i].m, xs[i].op).0;
      && xs[i].op.dir in bs[i].paths && P.ROOT in Tree(bs[k])
      && var r := P.ResolvePath(Tree(bs[k]), Join(bs[i].paths[xs[i].op.dir] + [xs[i].name]));
         && r.Reached? && r.file == f && Listed(bs[k].m, xs[i].op.dir, f)
         && (xs[i].op.PutFile? ==> Holds(bs[k].m, f, xs[i].op.bytes))
  {
    var x, f := xs[i], Put(bs[i].m, xs[i].op).0;
    BuildsGood(bs, xs, i);
    BuildsGood(bs, xs, k);
    assert Stepped(bs[i], x, bs[i + 1]);
    NextGood(bs[i], x, f);
    PutKeeps(bs[i].m, x.op, f, bs[i + 1].m);
    PathsStay(bs, xs, i + 1, k, f);
    assert PathOk(Tree(bs[k]), bs[k].paths[f], f);
    hide Sound, Put, TreeOf, Later, Listed, Holds, P.Resolve, P.Inv;
    JoinComponents(bs[k].paths[f]);
    LaterListed(bs[i + 1].m, bs[k].m, x.op.dir, f);
    if x.op.PutFile? { LaterHolds(bs[i + 1].m, bs[k].m, f, x.op.bytes); }
  }
}

/**
 Directories and path names in the file server (dir_lookup, dir_alloc_file, walk_path,
 file_create and regular-file removal of fs/fs.c).
 */
module FsPath {
  import opened Wrappers

  const MAXNAMELEN: nat := 128
  const ROOT: nat := 0

  datatype Kind = Reg | Dir

  /** A directory block holds file records; Bad is one that could not be read or allocated. */
  datatype DirBlock = Block(files: seq<nat>) | Bad

  /** A record with an empty name is unused. */
  datatype File = File(name: string, kind: Kind, blocks: seq<DirBlock>)

  type Tree = map<nat, File>

  // ---- dir_lookup ----

  /** The first record of the block with that name. */
  function FindIn(t: Tree, ids: seq<nat>, name: string): Option<nat> {
    if ids == [] then None
    else if ids[0] in t && t[ids[0]].name == name then Some(ids[0])
    else FindIn(t, ids[1..], name)
  }

  datatype Found = Hit(id: nat) | Miss | IoError

  function Find(t: Tree, blocks: seq<DirBlock>, name: string): Found {
    if blocks == [] then Miss
    else if blocks[0].Bad? then IoError
    else
      var r := FindIn(t, blocks[0].files, name);
      if r.Some? then Hit(r.value) else Find(t, blocks[1..], name)
  }

  function Lookup(t: Tree, dir: nat, name: string): Found
    requires dir in t
  {
    Find(t, t[dir].blocks, name)
  }

  // ---- path components ----

  /** The pieces of a path between slashes, empty ones included. */
  function Split(p: string): (r: seq<string>)
    ensures |r| >= 1
  {
    if p == [] then [[]]
    else if p[0] == '/' then [[]] + Split(p[1..])
    else
      var r := Split(p[1..]);
      [[p[0]] + r[0]] + r[1..]
  }

  function NonEmpty(parts: seq<string>): seq<string> {
    if parts == [] then [] else (if parts[0] == [] then [] else [parts[0]]) + NonEmpty(parts[1..])
  }

  function Components(p: string): seq<string> { NonEmpty(Split(p)) }

  // ---- walk_path ----

  /** How walk_path ends: a file, a place for a new name, or an error. */
  datatype Walk =
    | Reached(dir: Option<nat>, file: nat)
    | Vacant(place: nat, last: string)
    | NotFound
    | BadPath
    | Failed

  /** dir_lookup folded over the components, from `file` whose directory is `dir`. */
  function Resolve(t: Tree, dir: Option<nat>, file: nat, parts: seq<string>): Walk
    requires file in t
    decreases |parts|
  {
    if parts == [] then Reached(dir, file)
    else if |parts[0]| >= MAXNAMELEN then BadPath
    else if t[file].kind != Dir then NotFound
    else
      match Lookup(t, file, parts[0])
      case Hit(id) => if id in t then Resolve(t, Some(file), id, parts[1..]) else NotFound
      case Miss => if |parts| == 1 then Vacant(file, parts[0]) else NotFound
      case IoError => Failed
  }

  function ResolvePath(t: Tree, path: string): Walk
    requires ROOT in t
  {
    Resolve(t, None, ROOT, Components(path))
  }

  // ---- what a lookup and a walk mean ----

  ghost predicate Named(t: Tree, id: nat, name: string) { id in t && t[id].name == name }

  /** The blocks before `b` can be read and hold no record of that name. */
  ghost predicate ClearBefore(t: Tree, blocks: seq<DirBlock>, b: nat, name: string) {
    forall i :: 0 <= i < b && i < |blocks| ==> Without(t, blocks[i], name)
  }

  ghost predicate Without(t: Tree, block: DirBlock, name: string) {
    block.Block? && forall j :: 0 <= j < |block.files| ==> !Named(t, block.files[j], name)
  }

  /**
   dir_lookup ends at the first place where a block cannot be read or a record has the name: block
   `b`, and for a hit record `j` of it.
   */
  lemma {:induction false} LookupFirst(t: Tree, blocks: seq<DirBlock>, name: string) returns (b: nat, j: nat)
    ensures b <= |blocks| && ClearBefore(t, blocks, b, name)
    ensures Find(t, blocks, name) == Miss <==> b == |blocks|
    ensures Find(t, blocks, name) == IoError <==> b < |blocks| && blocks[b].Bad?
    ensures b < |blocks| && blocks[b].Block? ==>
              var ids := blocks[b].files;
              && j < |ids| && Named(t, ids[j], name) && Find(t, blocks, name) == Hit(ids[j])
              && forall i :: 0 <= i < j ==> !Named(t, ids[i], name)
  {
    b, j := 0, 0;
    if blocks != [] && blocks[0].Block? {
      j := FirstIn(t, blocks[0].files, name);
      if FindIn(t, blocks[0].files, name).None? {
        var b';
        b', j := LookupFirst(t, blocks[1..], name);
        b := b' + 1;
        forall i | 0 <= i < b && i < |blocks|
          ensures Without(t, blocks[i], name)
        {
          if i > 0 { assert Without(t, blocks[1..][i - 1], name); }
        }
      }
    }
  }

  lemma {:induction false} FirstIn(t: Tree, ids: seq<nat>, name: string) returns (j: nat)
    ensures j <= |ids| && forall i :: 0 <= i < j ==> !Named(t, ids[i], name)
    ensures FindIn(t, ids, name) == if j < |ids| then Some(ids[j]) else None
    ensures j < |ids| ==> Named(t, ids[j], name)
  {
    j := 0;
    if ids != [] && !Named(t, ids[0], name) {
      var k := FirstIn(t, ids[1..], name);
      j := k + 1;
      assert forall i :: 1 <= i < |ids| ==> ids[i] == ids[1..][i - 1];
    }
  }

  /** Each record of the chain is a directory in which the next component finds the next one. */
  ghost predicate Chain(t: Tree, chain: seq<nat>, parts: seq<string>) {
    && 1 <= |chain| <= |parts| + 1 && (forall i :: 0 <= i < |chain| ==> chain[i] in t)
    && (forall i :: 0 <= i < |chain| - 1 ==> LinkAt(t, chain, parts, i))
  }

  ghost predicate LinkAt(t: Tree, chain: seq<nat>, parts: seq<string>, i: nat)
    requires i + 1 < |chain| && i < |parts| && chain[i] in t
  {
    t[chain[i]].kind == Dir && |parts[i]| < 128 && Lookup(t, chain[i], parts[i]) == Hit(chain[i + 1])
  }

  /**
   A walk follows the chain of components as far as it goes, and how it ends says what comes next:
   nothing; a component of 128 characters or more; a file that is no directory, or a name that is
   missing before the last component; a name that is missing as the last one; a block that cannot
   be read.
   */
  lemma {:induction false} WalkEnds(t: Tree, dir: Option<nat>, file: nat, parts: seq<string>)
    returns (chain: seq<nat>)
    requires file in t
    ensures Chain(t, chain, parts) && chain[0] == file
    ensures var k := |chain| - 1;
      match Resolve(t, dir, file, parts)
      case Reached(d, f) => k == |parts| && f == chain[k] && d == if k == 0 then dir else Some(chain[k - 1])
      case BadPath => k < |parts| && |parts[k]| >= 128
      case NotFound =>
        && k < |parts| && |parts[k]| < 128
        && (t[chain[k]].kind == Dir ==>
              var l := Lookup(t, chain[k], parts[k]);
              (l == Miss && k + 1 < |parts|) || (l.Hit? && l.id !in t))
      case Vacant(place, last) =>
        && k + 1 == |parts| && place == chain[k] && last == parts[k] && |last| < 128
        && t[place].kind == Dir && Lookup(t, place, last) == Miss
      case Failed =>
        k < |parts| && |parts[k]| < 128 && t[chain[k]].kind == Dir && Lookup(t, chain[k], parts[k]) == IoError
    decreases |parts|
  {
    chain := [file];
    if parts != [] && |parts[0]| < MAXNAMELEN && t[file].kind == Dir {
      var l := Lookup(t, file, parts[0]);
      if l.Hit? && l.id in t {
        var rest := WalkEnds(t, Some(file), l.id, parts[1..]);
        chain := [file] + rest;
        forall i | 0 <= i < |chain| - 1
          ensures LinkAt(t, chain, parts, i)
        {
          if i > 0 { assert LinkAt(t, rest, parts[1..], i - 1); }
        }
      }
    }
  }

  // ---- the loops of dir_lookup and walk_path ----

  method DirLookup(t: Tree, dir: nat, name: string) returns (r: Found)
    requires dir in t
    ensures r == Lookup(t, dir, name)
  {
    var blocks := t[dir].blocks;
    var i := 0;
    while i < |blocks|
      invariant 0 <= i <= |blocks|
      invariant Find(t, blocks, name) == Find(t, blocks[i..], name)
    {
      if blocks[i].Bad? {
        return IoError;
      }
      var files := blocks[i].files;
      var j := 0;
      while j < |files|
        invariant 0 <= j <= |files|
        invariant FindIn(t, files, name) == FindIn(t, files[j..], name)
      {
        if files[j] in t && name == t[files[j]].name {
          return Hit(files[j]);
        }
        assert files[j..][1..] == files[j + 1..];
        j := j + 1;
      }
      assert blocks[i..][1..] == blocks[i + 1..];
      i := i + 1;
    }
    return Miss;
  }

  lemma {:induction false} SplitSlash(c: string, rest: string)
    requires '/' !in c
    ensures Split(c + ['/'] + rest) == [c] + Split(rest)
  {
    if c == [] {
      assert c + ['/'] + rest == ['/'] + rest;
    } else {
      SplitSlash(c[1..], rest);
      assert c[0] in c && [c[0]] + c[1..] == c;
      assert (c + ['/'] + rest)[1..] == c[1..] + ['/'] + rest;
    }
  }

  lemma {:induction false} SplitPlain(c: string)
    requires '/' !in c
    ensures Split(c) == [c]
  {
    if c != [] {
      SplitPlain(c[1..]);
      assert c[0] in c && [c[0]] + c[1..] == c;
    }
  }

  /** Leading slashes do not change the components. */
  lemma SkipOne(p: string)
    requires p != [] && p[0] == '/'
    ensures Components(p) == Components(p[1..])
  {
  }

  /** A name followed by a slash or the end is the first component. */
  lemma FirstComponent(path: string, i: nat, j: nat)
    requires i < j <= |path| && (forall k :: i <= k < j ==> path[k] != '/')
    requires j == |path| || path[j] == '/'
    ensures Components(path[i..]) == [path[i..j]] + Components(path[j..])
  {
    var c := path[i..j];
    if j == |path| {
      assert path[i..] == c && path[j..] == [];
      SplitPlain(c);
    } else {
      assert path[i..] == c + ['/'] + path[j + 1..];
      SplitSlash(c, path[j + 1..]);
      assert path[j..][1..] == path[j + 1..];
      SkipOne(path[j..]);
    }
  }

  /** skip_slash from position `i`. */
  method SkipSlash(path: string, i: nat) returns (k: nat)
    requires i <= |path|
    ensures i <= k <= |path| && (k < |path| ==> path[k] != '/')
    ensures Components(path[i..]) == Components(path[k..])
  {
    k := i;
    while k < |path| && path[k] == '/'
      invariant i <= k <= |path| && Components(path[i..]) == Components(path[k..])
    {
      SkipOne(path[k..]);
      assert path[k..][1..] == path[k + 1..];
      k := k + 1;
    }
  }

  /** walk_path is dir_lookup folded over the slash-separated components. */
  method WalkPath(t: Tree, path: string) returns (r: Walk)
    requires ROOT in t
    ensures r == ResolvePath(t, path)
  {
    hide Find, Components;
    var i := SkipSlash(path, 0);
    assert path[0..] == path;
    var file, dir := ROOT, None;
    while i < |path|
      invariant i <= |path| && file in t && (i < |path| ==> path[i] != '/')
      invariant ResolvePath(t, path) == Resolve(t, dir, file, Components(path[i..]))
      decreases |path| - i
    {
      var p := i;
      while i < |path| && path[i] != '/'
        invariant p <= i <= |path| && forall k :: p <= k < i ==> path[k] != '/'
        invariant i > p || (i < |path| && path[i] != '/')
      {
        i := i + 1;
      }
      FirstComponent(path, p, i);
      var name := path[p..i];
      if i - p >= MAXNAMELEN {
        return BadPath;
      }
      i := SkipSlash(path, i);
      EmptyComponents(path, i);
      if t[file].kind != Dir {
        return NotFound;
      }
      var found := DirLookup(t, file, name);
      match found {
        case Hit(id) =>
          if id !in t {
            return NotFound;
          }
          dir, file := Some(file), id;
        case Miss =>
          return if i == |path| then Vacant(file, name) else NotFound;
        case IoError =>
          return Failed;
      }
    }
    EmptyComponents(path, i);
    return Reached(dir, file);
  }

  /** No component is left exactly when the path, past its slashes, is at its end. */
  lemma EmptyComponents(path: string, i: nat)
    requires i <= |path| && (i < |path| ==> path[i] != '/')
    ensures Components(path[i..]) == [] <==> i == |path|
  {
    if i < |path| {
      var r := Split(path[i..][1..]);
      assert Split(path[i..]) == [[path[i]] + r[0]] + r[1..];
    }
  }

  // ---- dir_alloc_file and file_create ----

  datatype Errno = Exists | Missing | Illegal | IoFailed | IsDir

  datatype Result = Ok(file: nat) | Err(error: Errno)

  datatype Slot = Free(id: nat) | Full | Broken

  function FreeIn(t: Tree, ids: seq<nat>): Option<nat> {
    if ids == [] then None
    else if ids[0] in t && t[ids[0]].name == "" then Some(ids[0])
    else FreeIn(t, ids[1..])
  }

  /** The scan of dir_alloc_file for an unused record. */
  function FreeSlot(t: Tree, blocks: seq<DirBlock>): Slot {
    if blocks == [] then Full
    else if blocks[0].Bad? then Broken
    else
      var r := FreeIn(t, blocks[0].files);
      if r.Some? then Free(r.value) else FreeSlot(t, blocks[1..])
  }

  function Unused(): File { File("", Reg, []) }

  function AddRecords(t: Tree, ids: seq<nat>): Tree { t + map id | id in ids :: Unused() }

  /**
   dir_alloc_file: an unused record, or the first of a new block. `grown` is the new block's
   records, or None if no block can be had, in which case the directory has grown all the same.
   */
  function DirAllocFile(t: Tree, dir: nat, grown: Option<seq<nat>>): (Option<nat>, Tree)
    requires dir in t
  {
    match FreeSlot(t, t[dir].blocks)
    case Free(id) => (Some(id), t)
    case Broken => (None, t)
    case Full =>
      if grown.None? || grown.value == [] then (None, t[dir := t[dir].(blocks := t[dir].blocks + [Bad])])
      else
        (Some(grown.value[0]),
         AddRecords(t, grown.value)[dir := t[dir].(blocks := t[dir].blocks + [Block(grown.value)])])
  }

  /** file_create; a full disk is reported with walk_path's own error. */
  function FileCreate(t: Tree, kind: Kind, path: string, grown: Option<seq<nat>>): (Result, Tree)
    requires ROOT in t
  {
    match ResolvePath(t, path)
    case Reached(_, _) => (Err(Exists), t)
    case NotFound => (Err(Missing), t)
    case BadPath => (Err(Illegal), t)
    case Failed => (Err(IoFailed), t)
    case Vacant(dir, last) =>
      if dir !in t then (Err(Missing), t)
      else
        var a := DirAllocFile(t, dir, grown);
        if a.0.None? || a.0.value !in a.1 then (Err(Missing), a.1)
        else
          var f := a.0.value;
          (Ok(f), a.1[f := a.1[f].(kind := kind, name := last)])
  }

  // ---- invariant ----

  ghost predicate Holds(t: Tree, dir: nat, b: nat, j: nat, id: nat) {
    && dir in t && b < |t[dir].blocks| && t[dir].blocks[b].Block?
    && j < |t[dir].blocks[b].files| && t[dir].blocks[b].files[j] == id
  }

  /**
   Every record belongs to one place of one directory, the root to none; unused records have
   no blocks; and no two used records of a directory have the same name. (Blocks of different
   directories are different, so records are.)
   */
  ghost predicate Inv(t: Tree) {
    && ROOT in t && t[ROOT].kind == Dir
    && (forall dir: nat, b: nat, j: nat, id: nat :: Holds(t, dir, b, j, id) ==> id in t && id != ROOT)
    && (forall dir: nat, b: nat, j: nat, dir': nat, b': nat, j': nat, id: nat ::
          Holds(t, dir, b, j, id) && Holds(t, dir', b', j', id) ==> dir == dir' && b == b' && j == j')
    && (forall id :: id in t && t[id].name == "" && id != ROOT ==> t[id].blocks == [])
    && UniqueNames(t)
  }

  ghost predicate UniqueNames(t: Tree) {
    forall dir: nat, b: nat, j: nat, id: nat, b': nat, j': nat, id': nat
      | Holds(t, dir, b, j, id) && Holds(t, dir, b', j', id') && id in t && id' in t ::
      t[id].name != "" && t[id].name == t[id'].name ==> id == id'
  }

  /** New records for a grown directory are not records yet. */
  ghost predicate FreshRecords(t: Tree, grown: Option<seq<nat>>) {
    grown.Some? ==>
      && (forall i :: 0 <= i < |grown.value| ==> grown.value[i] !in t)
      && (forall i, j :: 0 <= i < j < |grown.value| ==> grown.value[i] != grown.value[j])
  }

  // ---- what creating a file leaves alone ----

  predicate Mentions(blocks: seq<DirBlock>, f: nat) {
    exists i :: 0 <= i < |blocks| && blocks[i].Block? && f in blocks[i].files
  }

  /** The records of a new block other than `f` are new and have no name. */
  ghost predicate OthersUnused(t: Tree, t': Tree, ids: seq<nat>, f: nat) {
    forall i | 0 <= i < |ids| && ids[i] != f :: ids[i] !in t && ids[i] in t' && t'[ids[i]].name == ""
  }

  /** t' is t with record `f` of directory `d` named `last`; `d` may have one more block. */
  ghost predicate Created(t: Tree, t': Tree, d: nat, f: nat, last: string) {
    && d in t && d in t' && f in t' && f != ROOT && f != d && last != ""
    && t'[f].name == last && (f in t ==> t[f].name == "")
    && (forall id :: id in t && id != f ==>
          && id in t' && t'[id].name == t[id].name && t'[id].kind == t[id].kind
          && (id != d ==> t'[id].blocks == t[id].blocks && !Mentions(t[id].blocks, f)))
    && ((t'[d].blocks == t[d].blocks && FreeSlot(t, t[d].blocks) == Free(f)) ||
        (f !in t && |t'[d].blocks| == |t[d].blocks| + 1 && t'[d].blocks[..|t[d].blocks|] == t[d].blocks &&
         var b := t'[d].blocks[|t[d].blocks|];
         b.Block? && b.files != [] && b.files[0] == f && OthersUnused(t, t', b.files, f)))
  }

  lemma {:induction false} FindInSame(t: Tree, t': Tree, ids: seq<nat>, name: string, f: nat)
    requires forall i :: 0 <= i < |ids| && ids[i] != f ==>
               (ids[i] in t <==> ids[i] in t') && (ids[i] in t ==> t'[ids[i]].name == t[ids[i]].name)
    requires f !in ids || ((f in t ==> t[f].name != name) && (f in t' ==> t'[f].name != name))
    ensures FindIn(t', ids, name) == FindIn(t, ids, name)
  {
    if ids != [] { FindInSame(t, t', ids[1..], name, f); }
  }

  ghost predicate NamesSame(t: Tree, t': Tree, blocks: seq<DirBlock>, f: nat) {
    forall i, j :: 0 <= i < |blocks| && blocks[i].Block? && 0 <= j < |blocks[i].files| && blocks[i].files[j] != f ==>
      var id := blocks[i].files[j]; (id in t <==> id in t') && (id in t ==> t'[id].name == t[id].name)
  }

  /** A lookup that the renamed record cannot answer gives what it gave before. */
  lemma {:induction false} FindSame(t: Tree, t': Tree, blocks: seq<DirBlock>, name: string, f: nat)
    requires NamesSame(t, t', blocks, f)
    requires !Mentions(blocks, f) || ((f in t ==> t[f].name != name) && (f in t' ==> t'[f].name != name))
    ensures Find(t', blocks, name) == Find(t, blocks, name)
  {
    if blocks != [] && blocks[0].Block? {
      FindInSame(t, t', blocks[0].files, name, f);
      assert blocks[1..] == blocks[1..];
      forall i | 0 <= i < |blocks[1..]|
        ensures blocks[1..][i] == blocks[i + 1]
      {
      }
      FindSame(t, t', blocks[1..], name, f);
    }
  }

  lemma {:induction false} FindAppend(t: Tree, blocks: seq<DirBlock>, b: DirBlock, name: string)
    ensures Find(t, blocks, name) != Miss ==> Find(t, blocks + [b], name) == Find(t, blocks, name)
    ensures Find(t, blocks, name) == Miss ==> Find(t, blocks + [b], name) == Find(t, [b], name)
  {
    if blocks == [] {
      assert blocks + [b] == [b];
    } else if blocks[0].Block? {
      assert (blocks + [b])[1..] == blocks[1..] + [b];
      FindAppend(t, blocks[1..], b, name);
    }
  }

  lemma {:induction false} FindNewIn(t: Tree, t': Tree, ids: seq<nat>, last: string, f: nat)
    requires FindIn(t, ids, last) == None && f in t' && t'[f].name == last
    requires forall i :: 0 <= i < |ids| && ids[i] != f ==>
               (ids[i] in t <==> ids[i] in t') && (ids[i] in t ==> t'[ids[i]].name == t[ids[i]].name)
    ensures f in ids ==> FindIn(t', ids, last) == Some(f)
    ensures f !in ids ==> FindIn(t', ids, last) == None
  {
    if ids != [] { FindNewIn(t, t', ids[1..], last, f); }
  }

  lemma {:induction false} FreeInMember(t: Tree, ids: seq<nat>)
    ensures var r := FreeIn(t, ids); r.Some? ==> r.value in ids && r.value in t && t[r.value].name == ""
  {
    if ids != [] { FreeInMember(t, ids[1..]); }
  }

  /** A name that was missing is now found at the record that took it. */
  lemma {:induction false} FindNew(t: Tree, t': Tree, blocks: seq<DirBlock>, last: string, f: nat)
    requires Find(t, blocks, last) == Miss && f in t' && t'[f].name == last
    requires NamesSame(t, t', blocks, f) && FreeSlot(t, blocks) == Free(f)
    ensures Find(t', blocks, last) == Hit(f)
  {
    FindNewIn(t, t', blocks[0].files, last, f);
    FreeInMember(t, blocks[0].files);
    if f !in blocks[0].files {
      forall i | 0 <= i < |blocks[1..]|
        ensures blocks[1..][i] == blocks[i + 1]
      {
      }
      FindNew(t, t', blocks[1..], last, f);
    }
  }

  /** Records named in the blocks of a directory exist. */
  ghost predicate Closed(t: Tree, blocks: seq<DirBlock>) {
    forall i, j :: 0 <= i < |blocks| && blocks[i].Block? && 0 <= j < |blocks[i].files| ==> blocks[i].files[j] in t
  }

  lemma ClosedDirs(t: Tree, d: nat)
    requires Inv(t) && d in t
    ensures Closed(t, t[d].blocks)
  {
    forall i, j | 0 <= i < |t[d].blocks| && t[d].blocks[i].Block? && 0 <= j < |t[d].blocks[i].files|
      ensures t[d].blocks[i].files[j] in t
    {
      assert Holds(t, d, i, j, t[d].blocks[i].files[j]);
    }
  }

  lemma {:induction false} FindName(t: Tree, blocks: seq<DirBlock>, name: string)
    ensures Find(t, blocks, name).Hit? ==>
              Find(t, blocks, name).id in t && t[Find(t, blocks, name).id].name == name
  {
    if blocks != [] && blocks[0].Block? {
      FindInName(t, blocks[0].files, name);
      FindName(t, blocks[1..], name);
    }
  }

  lemma {:induction false} FindInName(t: Tree, ids: seq<nat>, name: string)
    ensures FindIn(t, ids, name).Some? ==> FindIn(t, ids, name).value in t && t[FindIn(t, ids, name).value].name == name
  {
    if ids != [] { FindInName(t, ids[1..], name); }
  }

  /** Lookups that used to hit still hit the same record. */
  lemma LookupStays(t: Tree, t': Tree, d: nat, f: nat, last: string, dir: nat, name: string)
    requires Inv(t) && Created(t, t', d, f, last) && dir in t && dir != f && name != ""
    requires Lookup(t, d, last) == Miss && Lookup(t, dir, name).Hit?
    ensures dir in t' && Lookup(t', dir, name) == Lookup(t, dir, name)
  {
    ClosedDirs(t, dir);
    assert NamesSame(t, t', t[dir].blocks, f);
    FindSame(t, t', t[dir].blocks, name, f);
    if dir == d && t'[d].blocks != t[d].blocks {
      var b := t'[d].blocks[|t[d].blocks|];
      assert t'[d].blocks == t[d].blocks + [b];
      FindAppend(t', t[d].blocks, b, name);
    }
  }

  lemma LookupNew(t: Tree, t': Tree, d: nat, f: nat, last: string)
    requires Inv(t) && Created(t, t', d, f, last) && Lookup(t, d, last) == Miss
    ensures Lookup(t', d, last) == Hit(f)
  {
    ClosedDirs(t, d);
    assert NamesSame(t, t', t[d].blocks, f);
    if t'[d].blocks == t[d].blocks && FreeSlot(t, t[d].blocks) == Free(f) {
      FindNew(t, t', t[d].blocks, last, f);
    } else {
      var b := t'[d].blocks[|t[d].blocks|];
      assert t'[d].blocks == t[d].blocks + [b];
      NotMentioned(t, d, f);
      FindSame(t, t', t[d].blocks, last, f);
      FindAppend(t', t[d].blocks, b, last);
    }
  }

  lemma NotMentioned(t: Tree, d: nat, f: nat)
    requires Inv(t) && d in t && f !in t
    ensures !Mentions(t[d].blocks, f)
  {
    ClosedDirs(t, d);
  }

  ghost predicate AllNonEmpty(parts: seq<string>) { forall i :: 0 <= i < |parts| ==> parts[i] != "" }

  lemma {:induction false} NonEmptyAll(parts: seq<string>)
    ensures AllNonEmpty(NonEmpty(parts))
  {
    if parts != [] { NonEmptyAll(parts[1..]); }
  }

  /** Every path that resolved still resolves to the same file in the same directory. */
  lemma {:induction false} ResolveStays(t: Tree, t': Tree, d: nat, f: nat, last: string,
                                        dir: Option<nat>, file: nat, parts: seq<string>)
    requires Inv(t) && Created(t, t', d, f, last) && Lookup(t, d, last) == Miss && AllNonEmpty(parts)
    requires file in t && file != f && Resolve(t, dir, file, parts).Reached?
    ensures file in t' && Resolve(t', dir, file, parts) == Resolve(t, dir, file, parts)
    decreases |parts|
  {
    if parts != [] {
      LookupStays(t, t', d, f, last, file, parts[0]);
      FindName(t, t[file].blocks, parts[0]);
      ResolveStays(t, t', d, f, last, Some(file), Lookup(t, file, parts[0]).id, parts[1..]);
    }
  }

  /** The path that had a vacant place now leads to the new record. */
  lemma {:induction false} ResolveNew(t: Tree, t': Tree, d: nat, f: nat, last: string,
                                      dir: Option<nat>, file: nat, parts: seq<string>)
    requires Inv(t) && Created(t, t', d, f, last) && Lookup(t, d, last) == Miss && AllNonEmpty(parts)
    requires file in t && file != f && Resolve(t, dir, file, parts) == Vacant(d, last)
    ensures file in t' && Resolve(t', dir, file, parts) == Reached(Some(d), f)
    decreases |parts|
  {
    if Lookup(t, file, parts[0]).Miss? {
      LookupNew(t, t', d, f, last);
      assert parts[1..] == [];
    } else {
      LookupStays(t, t', d, f, last, file, parts[0]);
      FindName(t, t[file].blocks, parts[0]);
      ResolveNew(t, t', d, f, last, Some(file), Lookup(t, file, parts[0]).id, parts[1..]);
    }
  }

  /** What a vacant end of a walk means. */
  lemma {:induction false} VacantFacts(t: Tree, dir: Option<nat>, file: nat, parts: seq<string>)
    requires Inv(t) && AllNonEmpty(parts) && file in t && (file == ROOT || t[file].name != "")
    requires Resolve(t, dir, file, parts).Vacant?
    ensures var v := Resolve(t, dir, file, parts);
      && v.place in t && t[v.place].kind == Dir && v.last != "" && |v.last| < MAXNAMELEN
      && Lookup(t, v.place, v.last) == Miss && (v.place == ROOT || t[v.place].name != "")
    decreases |parts|
  {
    if !Lookup(t, file, parts[0]).Miss? {
      FindName(t, t[file].blocks, parts[0]);
      VacantFacts(t, Some(file), Lookup(t, file, parts[0]).id, parts[1..]);
    }
  }

  lemma {:induction false} FreeSlotFacts(t: Tree, blocks: seq<DirBlock>)
    ensures FreeSlot(t, blocks).Free? ==>
              && Mentions(blocks, FreeSlot(t, blocks).id) && FreeSlot(t, blocks).id in t
              && t[FreeSlot(t, blocks).id].name == ""
  {
    if blocks != [] && blocks[0].Block? {
      FreeInMember(t, blocks[0].files);
      FreeSlotFacts(t, blocks[1..]);
      if FreeIn(t, blocks[0].files).None? && FreeSlot(t, blocks[1..]).Free? {
        var i :| 0 <= i < |blocks[1..]| && blocks[1..][i].Block? && FreeSlot(t, blocks[1..]).id in blocks[1..][i].files;
        assert blocks[i + 1] == blocks[1..][i];
      }
    }
  }

  /** The record dir_alloc_file returns belongs to no other directory. */
  lemma AllocIsCreated(t: Tree, t': Tree, d: nat, kind: Kind, last: string, grown: Option<seq<nat>>, f: nat)
    requires Inv(t) && FreshRecords(t, grown) && d in t && last != "" && (d == ROOT || t[d].name != "")
    requires ROOT in t && Lookup(t, d, last) == Miss
    requires var a := DirAllocFile(t, d, grown);
      a.0 == Some(f) && f in a.1 && t' == a.1[f := a.1[f].(kind := kind, name := last)]
    ensures Created(t, t', d, f, last)
  {
    FreeSlotFacts(t, t[d].blocks);
    if FreeSlot(t, t[d].blocks).Free? {
      var i :| 0 <= i < |t[d].blocks| && t[d].blocks[i].Block? && f in t[d].blocks[i].files;
      var j :| 0 <= j < |t[d].blocks[i].files| && t[d].blocks[i].files[j] == f;
      assert Holds(t, d, i, j, f);
      forall id | id in t && id != d
        ensures !Mentions(t[id].blocks, f)
      {
        forall i', j' | 0 <= i' < |t[id].blocks| && t[id].blocks[i'].Block? && 0 <= j' < |t[id].blocks[i'].files|
          ensures t[id].blocks[i'].files[j'] != f
        {
          if t[id].blocks[i'].files[j'] == f { assert Holds(t, id, i', j', f); }
        }
      }
    } else {
      assert grown.value[0] !in t;
      forall id | id in t
        ensures !Mentions(t[id].blocks, f)
      {
        NotMentioned(t, id, f);
      }
    }
  }

  /**
   file_create: on success the path resolves to the new record, in the directory where it was
   missing, with the requested kind; and every path that resolved before still reaches the
   same file.
   */
  lemma CreateResolves(t: Tree, kind: Kind, path: string, grown: Option<seq<nat>>, f: nat, t': Tree, other: string)
    requires Inv(t) && FreshRecords(t, grown) && (Ok(f), t') == FileCreate(t, kind, path, grown)
    ensures ROOT in t' && ResolvePath(t', path).Reached? && ResolvePath(t', path).file == f
    ensures f in t' && t'[f].kind == kind && |t'[f].name| < MAXNAMELEN
    ensures ResolvePath(t, other).Reached? ==> ResolvePath(t', other) == ResolvePath(t, other)
  {
    NonEmptyAll(Split(path));
    NonEmptyAll(Split(other));
    VacantFacts(t, None, ROOT, Components(path));
    var v := ResolvePath(t, path);
    AllocIsCreated(t, t', v.place, kind, v.last, grown, f);
    ResolveNew(t, t', v.place, f, v.last, None, ROOT, Components(path));
    if ResolvePath(t, other).Reached? {
      ResolveStays(t, t', v.place, f, v.last, None, ROOT, Components(other));
    }
  }

  /**
   file_create succeeds if and only if the name is missing from a directory that has an unused
   record or can grow; it refuses a path that is taken, too long a name and an unreadable block, each
   with its own error; and creating the same path once more is refused and changes nothing.
   */
  lemma CreateRefuses(t: Tree, kind: Kind, path: string, grown: Option<seq<nat>>, again: Kind, more: Option<seq<nat>>)
    requires Inv(t) && FreshRecords(t, grown)
    ensures var r := FileCreate(t, kind, path, grown);
      var v := ResolvePath(t, path);
      && (r.0.Ok? <==>
            v.Vacant? && v.place in t &&
            (FreeSlot(t, t[v.place].blocks).Free? ||
             (FreeSlot(t, t[v.place].blocks) == Full && grown.Some? && grown.value != [])))
      && (r.0 == Err(Exists) <==> v.Reached?) && (r.0 == Err(Illegal) <==> v == BadPath)
      && (r.0 == Err(IoFailed) <==> v == Failed)
      && (r.0.Ok? ==> ROOT in r.1 && FileCreate(r.1, again, path, more) == (Err(Exists), r.1))
  {
    NonEmptyAll(Split(path));
    var r := FileCreate(t, kind, path, grown);
    var v := ResolvePath(t, path);
    if v.Vacant? {
      VacantFacts(t, None, ROOT, Components(path));
      FreeSlotFacts(t, t[v.place].blocks);
    }
    if r.0.Ok? { CreateResolves(t, kind, path, grown, r.0.file, r.1, path); }
  }

  // ---- what creating a file adds ----

  /** Whether walking the components from `file` enters record `f`. */
  predicate Visits(t: Tree, file: nat, parts: seq<string>, f: nat)
    requires file in t
    decreases |parts|
  {
    parts != [] && |parts[0]| < MAXNAMELEN && t[file].kind == Dir &&
    var r := Lookup(t, file, parts[0]);
    r.Hit? && r.id in t && (r.id == f || Visits(t, r.id, parts[1..], f))
  }

  lemma {:induction false} FindInUnused(t: Tree, ids: seq<nat>, name: string, f: nat)
    requires forall i | 0 <= i < |ids| && ids[i] != f :: ids[i] in t ==> t[ids[i]].name != name
    ensures FindIn(t, ids, name) == None || FindIn(t, ids, name) == Some(f)
  {
    if ids != [] { FindInUnused(t, ids[1..], name, f); }
  }

  lemma {:induction false} FindInReflects(t: Tree, t': Tree, ids: seq<nat>, name: string, f: nat)
    requires forall i | 0 <= i < |ids| && ids[i] != f ::
               (ids[i] in t <==> ids[i] in t') && (ids[i] in t ==> t'[ids[i]].name == t[ids[i]].name)
    requires f in t ==> t[f].name != name
    ensures FindIn(t', ids, name) == Some(f) || FindIn(t', ids, name) == FindIn(t, ids, name)
  {
    if ids != [] { FindInReflects(t, t', ids[1..], name, f); }
  }

  lemma {:induction false} FindReflects(t: Tree, t': Tree, blocks: seq<DirBlock>, name: string, f: nat)
    requires NamesSame(t, t', blocks, f) && (f in t ==> t[f].name != name)
    ensures Find(t', blocks, name) == Hit(f) || Find(t', blocks, name) == Find(t, blocks, name)
  {
    if blocks != [] && blocks[0].Block? {
      FindInReflects(t, t', blocks[0].files, name, f);
      forall i | 0 <= i < |blocks[1..]|
        ensures blocks[1..][i] == blocks[i + 1]
      {
      }
      FindReflects(t, t', blocks[1..], name, f);
    }
  }

  /** A lookup that does not hit the new record gives what it gave before. */
  lemma LookupReflects(t: Tree, t': Tree, d: nat, f: nat, last: string, dir: nat, name: string)
    requires Inv(t) && Created(t, t', d, f, last) && dir in t && dir in t' && dir != f && name != ""
    ensures Lookup(t', dir, name) == Hit(f) || Lookup(t', dir, name) == Lookup(t, dir, name)
  {
    ClosedDirs(t, dir);
    assert NamesSame(t, t', t[dir].blocks, f);
    FindReflects(t, t', t[dir].blocks, name, f);
    if dir == d && t'[d].blocks != t[d].blocks {
      var b := t'[d].blocks[|t[d].blocks|];
      assert t'[d].blocks == t[d].blocks + [b];
      FindAppend(t', t[d].blocks, b, name);
      FindInUnused(t', b.files, name, f);
    }
  }

  /** Walks that do not enter the new record end as they did. */
  lemma {:induction false} ResolveReflects(t: Tree, t': Tree, d: nat, f: nat, last: string,
                                           dir: Option<nat>, file: nat, parts: seq<string>)
    requires Inv(t) && Created(t, t', d, f, last) && AllNonEmpty(parts)
    requires file in t && file in t' && file != f && !Visits(t', file, parts, f)
    ensures Resolve(t', dir, file, parts) == Resolve(t, dir, file, parts)
    decreases |parts|
  {
    if parts != [] && |parts[0]| < MAXNAMELEN && t[file].kind == Dir {
      LookupReflects(t, t', d, f, last, file, parts[0]);
      FindName(t', t'[file].blocks, parts[0]);
      FindName(t, t[file].blocks, parts[0]);
      if Lookup(t', file, parts[0]).Hit? {
        ResolveReflects(t, t', d, f, last, Some(file), Lookup(t, file, parts[0]).id, parts[1..]);
      }
    }
  }

  /**
   A successful file_create changes how a path ends only if the new walk enters the new
   record: nothing else appears, disappears or moves.
   */
  lemma CreateAddsOne(t: Tree, kind: Kind, path: string, grown: Option<seq<nat>>, f: nat, t': Tree, other: string)
    requires Inv(t) && FreshRecords(t, grown) && (Ok(f), t') == FileCreate(t, kind, path, grown)
    ensures ROOT in t'
    ensures !Visits(t', ROOT, Components(other), f) ==> ResolvePath(t', other) == ResolvePath(t, other)
  {
    NonEmptyAll(Split(path));
    NonEmptyAll(Split(other));
    VacantFacts(t, None, ROOT, Components(path));
    var v := ResolvePath(t, path);
    AllocIsCreated(t, t', v.place, kind, v.last, grown, f);
    if !Visits(t', ROOT, Components(other), f) {
      ResolveReflects(t, t', v.place, f, v.last, None, ROOT, Components(other));
    }
  }

  // ---- file_create keeps the invariant ----

  lemma {:induction false} MissIn(t: Tree, ids: seq<nat>, name: string)
    requires FindIn(t, ids, name) == None
    ensures forall j | 0 <= j < |ids| :: ids[j] in t ==> t[ids[j]].name != name
  {
    if ids != [] { MissIn(t, ids[1..], name); }
  }

  /** A missing name is the name of no record of the directory. */
  lemma {:induction false} MissAll(t: Tree, blocks: seq<DirBlock>, name: string, i: nat, j: nat)
    requires Find(t, blocks, name) == Miss
    requires i < |blocks| && blocks[i].Block? && j < |blocks[i].files| && blocks[i].files[j] in t
    ensures t[blocks[i].files[j]].name != name
  {
    if i == 0 {
      MissIn(t, blocks[0].files, name);
    } else {
      MissAll(t, blocks[1..], name, i - 1, j);
    }
  }

  /** Taking an unused record of `d`. */
  lemma TakeKeeps(t: Tree, d: nat, f: nat, kind: Kind, last: string)
    requires Inv(t) && d in t && Lookup(t, d, last) == Miss && last != "" && FreeSlot(t, t[d].blocks) == Free(f)
    requires f in t
    ensures Inv(t[f := t[f].(kind := kind, name := last)])
  {
    hide Find, FreeSlot, FreeIn, FindIn;
    var t' := t[f := t[f].(kind := kind, name := last)];
    FreeSlotFacts(t, t[d].blocks);
    var i, j: nat := PlaceOf(t, d, f);
    forall dir: nat, b: nat, k: nat, id: nat
      ensures Holds(t', dir, b, k, id) <==> Holds(t, dir, b, k, id)
    {
    }
    forall dir: nat, b: nat, k: nat, id: nat, b': nat, k': nat, id': nat
      | Holds(t', dir, b, k, id) && Holds(t', dir, b', k', id') && id in t' && id' in t'
      ensures t'[id].name != "" && t'[id].name == t'[id'].name ==> id == id'
    {
      assert Holds(t, dir, b, k, id) && Holds(t, dir, b', k', id');
      if id == f && id' != f && dir == d { MissAll(t, t[d].blocks, last, b', k'); }
      if id' == f && id != f && dir == d { MissAll(t, t[d].blocks, last, b, k); }
    }
  }

  lemma PlaceOf(t: Tree, d: nat, f: nat) returns (i: nat, j: nat)
    requires d in t && Mentions(t[d].blocks, f)
    ensures Holds(t, d, i, j, f)
  {
    i :| i < |t[d].blocks| && t[d].blocks[i].Block? && f in t[d].blocks[i].files;
    j :| j < |t[d].blocks[i].files| && t[d].blocks[i].files[j] == f;
  }

  /** A directory that grew by a block of new unused records, or by one that cannot be had. */
  lemma GrowKeeps(t: Tree, d: nat, ids: seq<nat>, b: DirBlock)
    requires Inv(t) && d in t && FreshRecords(t, Some(ids)) && (b == Block(ids) || (b == Bad && ids == []))
    requires d == ROOT || t[d].name != ""
    ensures Inv(AddRecords(t, ids)[d := t[d].(blocks := t[d].blocks + [b])])
  {
    hide Find, FreeSlot, FreeIn, FindIn;
    var t' := AddRecords(t, ids)[d := t[d].(blocks := t[d].blocks + [b])];
    var n := |t[d].blocks|;
    forall dir: nat, c: nat, k: nat, id: nat
      ensures Holds(t', dir, c, k, id) <==>
                (Holds(t, dir, c, k, id) || (dir == d && c == n && k < |ids| && ids[k] == id))
    {
    }
    forall dir: nat, c: nat, j: nat, dir': nat, c': nat, j': nat, id: nat
      | Holds(t', dir, c, j, id) && Holds(t', dir', c', j', id)
      ensures dir == dir' && c == c' && j == j'
    {
    }
    forall dir: nat, c: nat, k: nat, id: nat, c': nat, k': nat, id': nat
      | Holds(t', dir, c, k, id) && Holds(t', dir, c', k', id') && id in t' && id' in t'
      ensures t'[id].name != "" && t'[id].name == t'[id'].name ==> id == id'
    {
    }
  }

  /** After growing, the first record of the new block is the unused one the scan finds. */
  lemma {:induction false} GrownSlot(t: Tree, t': Tree, blocks: seq<DirBlock>, ids: seq<nat>)
    requires FreeSlot(t, blocks) == Full && Closed(t, blocks) && ids != [] && ids[0] in t' && t'[ids[0]].name == ""
    requires forall id :: id in t ==> id in t' && t'[id].name == t[id].name
    ensures FreeSlot(t', blocks + [Block(ids)]) == Free(ids[0])
  {
    if blocks == [] {
      assert blocks + [Block(ids)] == [Block(ids)];
    } else {
      FullIn(t, t', blocks[0].files);
      forall i | 0 <= i < |blocks[1..]|
        ensures blocks[1..][i] == blocks[i + 1]
      {
      }
      assert (blocks + [Block(ids)])[1..] == blocks[1..] + [Block(ids)];
      GrownSlot(t, t', blocks[1..], ids);
    }
  }

  lemma {:induction false} FullIn(t: Tree, t': Tree, files: seq<nat>)
    requires FreeIn(t, files) == None && (forall j :: 0 <= j < |files| ==> files[j] in t)
    requires forall id :: id in t ==> id in t' && t'[id].name == t[id].name
    ensures FreeIn(t', files) == None
  {
    if files != [] { FullIn(t, t', files[1..]); }
  }

  /** file_create keeps the tree well formed, whether it succeeds or fails. */
  lemma CreateKeeps(t: Tree, kind: Kind, path: string, grown: Option<seq<nat>>)
    requires Inv(t) && FreshRecords(t, grown)
    ensures Inv(FileCreate(t, kind, path, grown).1)
  {
    NonEmptyAll(Split(path));
    var v := ResolvePath(t, path);
    if v.Vacant? {
      VacantFacts(t, None, ROOT, Components(path));
      var d := v.place;
      if FreeSlot(t, t[d].blocks).Free? {
        FreeSlotFacts(t, t[d].blocks);
        TakeKeeps(t, d, FreeSlot(t, t[d].blocks).id, kind, v.last);
      } else if FreeSlot(t, t[d].blocks).Full? {
        CreateGrowsKeeps(t, d, kind, v.last, grown);
      }
    }
  }

  lemma CreateGrowsKeeps(t: Tree, d: nat, kind: Kind, last: string, grown: Option<seq<nat>>)
    requires Inv(t) && FreshRecords(t, grown) && d in t && (d == ROOT || t[d].name != "") && last != ""
    requires FreeSlot(t, t[d].blocks) == Full && Lookup(t, d, last) == Miss
    ensures var a := DirAllocFile(t, d, grown);
      && Inv(a.1)
      && (a.0.Some? && a.0.value in a.1 ==>
            Inv(a.1[a.0.value := a.1[a.0.value].(kind := kind, name := last)]))
  {
    var t1 := DirAllocFile(t, d, grown).1;
    if grown.None? || grown.value == [] {
      GrowKeeps(t, d, [], Bad);
      assert AddRecords(t, []) == t;
    } else {
      var ids := grown.value;
      GrowKeeps(t, d, ids, Block(ids));
      ClosedDirs(t, d);
      GrownSlot(t, t1, t[d].blocks, ids);
      assert NamesSame(t, t1, t[d].blocks, ids[0]);
      NotMentioned(t, d, ids[0]);
      FindSame(t, t1, t[d].blocks, last, ids[0]);
      FindAppend(t1, t[d].blocks, Block(ids), last);
      FindInUnused(t1, ids, last, ids[0]);
      FindInName(t1, ids, last);
      TakeKeeps(t1, d, ids[0], kind, last);
    }
  }

  // ---- a directory that grows into a block with old contents ----

  /** A record of the new block: what the block held there, or an unused one. */
  function Held(past: map<nat, File>, id: nat): File { if id in past then past[id] else Unused() }

  /** dir_alloc_file and the rest of file_create when the new block is not read as zeros. */
  function CreateOver(t: Tree, d: nat, kind: Kind, last: string, ids: seq<nat>, past: map<nat, File>): Tree
    requires d in t && ids != []
  {
    var t1 := (t + map id | id in ids :: Held(past, id))[d := t[d].(blocks := t[d].blocks + [Block(ids)])];
    t1[ids[0] := Held(past, ids[0]).(kind := kind, name := last)]
  }

  /** The block reads as unused records, but for the name and type of the first. */
  predicate ReadsUnused(ids: seq<nat>, past: map<nat, File>)
    requires ids != []
  {
    && Held(past, ids[0]).blocks == []
    && forall i | 1 <= i < |ids| :: Held(past, ids[i]).name == "" && Held(past, ids[i]).blocks == []
  }

  /** A full directory, a name that is missing from it, and a block of records not seen before. */
  ghost predicate GrowsFor(t: Tree, d: nat, last: string, ids: seq<nat>) {
    && Inv(t) && d in t && (d == ROOT || t[d].name != "") && FreshRecords(t, Some(ids)) && ids != [] && last != ""
    && FreeSlot(t, t[d].blocks) == Full && Lookup(t, d, last) == Miss
  }

  /** Nothing but the new name has come into the directory, and the new file is empty. */
  ghost predicate OnlyAdds(t: Tree, t': Tree, d: nat, f: nat, last: string)
    requires d in t && d in t' && f in t'
  {
    && Inv(t') && t'[f].blocks == []
    && forall name: string :: name != "" && name != last ==> Lookup(t', d, name) == Lookup(t, d, name)
  }

  lemma {:induction false} FullNeverFails(t: Tree, blocks: seq<DirBlock>, name: string)
    requires FreeSlot(t, blocks) == Full
    ensures Find(t, blocks, name) != IoError
  {
    if blocks != [] { FullNeverFails(t, blocks[1..], name); }
  }

  lemma {:induction false} FindInFresh(t: Tree, ids: seq<nat>, name: string)
    requires forall i | 0 <= i < |ids| :: ids[i] in t && t[ids[i]].name != name
    ensures FindIn(t, ids, name) == None
  {
    if ids != [] { FindInFresh(t, ids[1..], name); }
  }

  lemma {:induction false} FindInHits(t: Tree, ids: seq<nat>, name: string, i: nat)
    requires i < |ids| && ids[i] in t && t[ids[i]].name == name
    ensures FindIn(t, ids, name).Some?
  {
    if i > 0 { FindInHits(t, ids[1..], name, i - 1); }
  }

  /** Lookups in the grown directory: first as before, then in the new block. */
  lemma LookupOver(t: Tree, t': Tree, d: nat, kind: Kind, last: string, ids: seq<nat>, past: map<nat, File>,
                   name: string)
    requires GrowsFor(t, d, last, ids) && t' == CreateOver(t, d, kind, last, ids, past)
    ensures d in t' && t'[d].blocks == t[d].blocks + [Block(ids)] && ids[0] in t'
    ensures Lookup(t', d, name) ==
            if Lookup(t, d, name).Hit? then Lookup(t, d, name)
            else var r := FindIn(t', ids, name); if r.Some? then Hit(r.value) else Miss
  {
    FullNeverFails(t, t[d].blocks, name);
    assert ids[0] !in t;
    ClosedDirs(t, d);
    hide FindIn, Inv;
    FoundAlikeAll(t, t', t[d].blocks, name);
    FindAppend(t', t[d].blocks, Block(ids), name);
    OneBlock(t', ids, name);
  }

  lemma OneBlock(t: Tree, ids: seq<nat>, name: string)
    ensures Find(t, [Block(ids)], name) == var r := FindIn(t, ids, name); if r.Some? then Hit(r.value) else Miss
  {
    assert [Block(ids)][1..] == [];
  }

  /** With unused records it is the creation that the other results are about. */
  lemma CreateOverUnused(t: Tree, t': Tree, d: nat, kind: Kind, last: string, ids: seq<nat>, past: map<nat, File>)
    requires GrowsFor(t, d, last, ids) && t' == CreateOver(t, d, kind, last, ids, past) && ReadsUnused(ids, past)
    ensures OnlyAddsAt(t, t', d, ids[0], last)
  {
    var t1 := AddRecords(t, ids)[d := t[d].(blocks := t[d].blocks + [Block(ids)])];
    var t2 := t1[ids[0] := t1[ids[0]].(kind := kind, name := last)];
    CreateGrowsKeeps(t, d, kind, last, Some(ids));
    LookupOver(t, t', d, kind, last, ids, past, last);
    assert ids[0] in t1;
    SameNamesInv(t2, t');
    forall name: string | name != "" && name != last
      ensures Lookup(t', d, name) == Lookup(t, d, name)
    {
      LookupOver(t, t', d, kind, last, ids, past, name);
      FullNeverFails(t, t[d].blocks, name);
      NewNames(t', ids, name, ids[0], last);
    }
  }

  ghost predicate OnlyAddsAt(t: Tree, t': Tree, d: nat, f: nat, last: string) {
    d in t && d in t' && f in t' && OnlyAdds(t, t', d, f, last)
  }

  /** The kinds of records other than the root do not matter to the invariant. */
  lemma SameNamesInv(t: Tree, t': Tree)
    requires Inv(t) && t'.Keys == t.Keys && t'[ROOT].kind == t[ROOT].kind
    requires forall id :: id in t ==> t'[id].name == t[id].name && t'[id].blocks == t[id].blocks
    ensures Inv(t')
  {
    hide Find, FreeSlot, FreeIn, FindIn;
    forall dir: nat, b: nat, j: nat, id: nat
      ensures Holds(t', dir, b, j, id) <==> Holds(t, dir, b, j, id)
    {
    }
  }

  lemma NewNames(t: Tree, ids: seq<nat>, name: string, f: nat, last: string)
    requires name != "" && name != last && forall i | 0 <= i < |ids| :: ids[i] in t
    requires forall i | 0 <= i < |ids| :: t[ids[i]].name == if ids[i] == f then last else ""
    ensures FindIn(t, ids, name) == None
  {
    FindInFresh(t, ids, name);
  }
  /** A named record behind the first would be found, or share its name. */
  lemma OverNamed(t: Tree, t': Tree, d: nat, kind: Kind, last: string, ids: seq<nat>, past: map<nat, File>, i: nat)
    requires GrowsFor(t, d, last, ids) && t' == CreateOver(t, d, kind, last, ids, past)
    requires OnlyAddsAt(t, t', d, ids[0], last) && 1 <= i < |ids|
    ensures Held(past, ids[i]).name == ""
  {
    var n := Held(past, ids[i]).name;
    assert ids[i] !in t && ids[0] != ids[i];
    assert ids[i] in t' && t'[ids[i]] == Held(past, ids[i]);
    LookupOver(t, t', d, kind, last, ids, past, n);
    var b := |t[d].blocks|;
    assert Holds(t', d, b, i, ids[i]) && Holds(t', d, b, 0, ids[0]) && UniqueNames(t');
    if n != "" {
      FindInHits(t', ids, n, i);
      if n != last {
        FindMentions(t, t[d].blocks, n);
        FindName(t, t[d].blocks, n);
        var x := Lookup(t, d, n).id;
        var b', j' := PlaceOf(t, d, x);
        assert Holds(t', d, b', j', x);
      }
    }
  }

  lemma OverBlank(t: Tree, t': Tree, d: nat, kind: Kind, last: string, ids: seq<nat>, past: map<nat, File>, i: nat)
    requires GrowsFor(t, d, last, ids) && t' == CreateOver(t, d, kind, last, ids, past)
    requires OnlyAddsAt(t, t', d, ids[0], last) && i < |ids|
    ensures Held(past, ids[i]).blocks == []
  {
    assert ids[i] !in t;
    if i > 0 {
      OverNamed(t, t', d, kind, last, ids, past, i);
      assert ids[0] != ids[i];
      assert t'[ids[i]] == Held(past, ids[i]);
    }
  }

  /**
   A full directory grows into a block that still holds old records: the directory gains exactly
   the new name and the file is empty if and only if the block reads as unused records. A block
   fresh from the disk allocator does unless it was cached.
   */
  lemma CreateOverExact(t: Tree, t': Tree, d: nat, kind: Kind, last: string, ids: seq<nat>, past: map<nat, File>)
    requires GrowsFor(t, d, last, ids) && t' == CreateOver(t, d, kind, last, ids, past)
    ensures OnlyAddsAt(t, t', d, ids[0], last) <==> ReadsUnused(ids, past)
  {
    if ReadsUnused(ids, past) {
      CreateOverUnused(t, t', d, kind, last, ids, past);
    } else if OnlyAddsAt(t, t', d, ids[0], last) {
      OverBlank(t, t', d, kind, last, ids, past, 0);
      forall i | 1 <= i < |ids|
        ensures Held(past, ids[i]).name == "" && Held(past, ids[i]).blocks == []
      {
        OverNamed(t, t', d, kind, last, ids, past, i);
        OverBlank(t, t', d, kind, last, ids, past, i);
      }
    }
  }

  /** An empty root grows into a block that held the name "x": creating "a" brings "x" back. */
  lemma StaleDirectoryExample()
    ensures var t: Tree := map[ROOT := File("/", Dir, [])];
      var t' := CreateOver(t, ROOT, Reg, "a", [1, 2], map[2 := File("x", Reg, [])]);
      GrowsFor(t, ROOT, "a", [1, 2]) && ROOT in t' && Lookup(t, ROOT, "x") == Miss && Lookup(t', ROOT, "x") == Hit(2)
  {
    var t: Tree := map[ROOT := File("/", Dir, [])];
    var past: map<nat, File> := map[2 := File("x", Reg, [])];
    var t' := CreateOver(t, ROOT, Reg, "a", [1, 2], past);
    LookupOver(t, t', ROOT, Reg, "a", [1, 2], past, "x");
    assert [1, 2][1..] == [2];
    assert FindIn(t', [2], "x") == Some(2);
  }

  // ---- file_remove ----

  /** file_remove; `force` is the request that may also remove a directory. */
  function FileRemove(t: Tree, path: string, force: bool): (Option<Errno>, Tree)
    requires ROOT in t
  {
    match ResolvePath(t, path)
    case NotFound => (Some(Missing), t)
    case Vacant(_, _) => (Some(Missing), t)
    case BadPath => (Some(Illegal), t)
    case Failed => (Some(IoFailed), t)
    case Reached(_, f) =>
      if f !in t then (Some(Missing), t)
      else if t[f].kind == Dir && !force then (Some(IsDir), t)
      else (None, Emptied(t, f))
  }

  /** Record `f` truncated to nothing and unnamed. */
  function Emptied(t: Tree, f: nat): Tree
    requires f in t
  {
    t[f := t[f].(name := "", blocks := [])]
  }

  lemma EmptiedKeeps(t: Tree, f: nat)
    requires Inv(t) && f in t
    ensures Inv(Emptied(t, f))
  {
    hide Find, FreeSlot, FreeIn, FindIn;
    var t' := Emptied(t, f);
    forall dir: nat, b: nat, j: nat, id: nat | Holds(t', dir, b, j, id)
      ensures Holds(t, dir, b, j, id)
    {
    }
  }

  lemma RemoveKeeps(t: Tree, path: string, force: bool)
    requires Inv(t)
    ensures Inv(FileRemove(t, path, force).1)
  {
    var v := ResolvePath(t, path);
    if v.Reached? && v.file in t { EmptiedKeeps(t, v.file); }
  }

  /** Without record `f`, other names of the directory are found where they were. */
  lemma LookupWithout(t: Tree, f: nat, dir: nat, name: string)
    requires Inv(t) && f in t && dir in t && dir != f && name != ""
    ensures Lookup(t, dir, name) != Hit(f) ==> Lookup(Emptied(t, f), dir, name) == Lookup(t, dir, name)
    ensures Lookup(t, dir, name) == Hit(f) ==> !Lookup(Emptied(t, f), dir, name).Hit?
  {
    var t' := Emptied(t, f);
    ClosedDirs(t, dir);
    assert NamesSame(t', t, t[dir].blocks, f);
    FindReflects(t', t, t[dir].blocks, name, f);
    var r := Lookup(t', dir, name);
    FindMentions(t, t[dir].blocks, name);
    FindMentions(t', t[dir].blocks, name);
    FindName(t, t[dir].blocks, name);
    FindName(t', t[dir].blocks, name);
    if Lookup(t, dir, name) == Hit(f) && r.Hit? { OneOfAName(t, dir, f, r.id); }
  }

  lemma OneOfAName(t: Tree, dir: nat, f: nat, g: nat)
    requires Inv(t) && dir in t && f in t && g in t && Mentions(t[dir].blocks, f) && Mentions(t[dir].blocks, g)
    requires t[f].name == t[g].name && t[f].name != ""
    ensures f == g
  {
    var b, j := PlaceOf(t, dir, f);
    var b', j' := PlaceOf(t, dir, g);
    assert Holds(t, dir, b, j, f) && Holds(t, dir, b', j', g);
  }

  lemma {:induction false} FindInMember(t: Tree, ids: seq<nat>, name: string)
    ensures FindIn(t, ids, name).Some? ==> FindIn(t, ids, name).value in ids
  {
    if ids != [] { FindInMember(t, ids[1..], name); }
  }

  lemma {:induction false} FindMentions(t: Tree, blocks: seq<DirBlock>, name: string)
    ensures Find(t, blocks, name).Hit? ==> Mentions(blocks, Find(t, blocks, name).id)
  {
    if blocks != [] && blocks[0].Block? {
      FindInMember(t, blocks[0].files, name);
      FindMentions(t, blocks[1..], name);
      if Find(t, blocks[1..], name).Hit? && FindIn(t, blocks[0].files, name).None? {
        var id := Find(t, blocks[1..], name).id;
        var i :| 0 <= i < |blocks[1..]| && blocks[1..][i].Block? && id in blocks[1..][i].files;
        assert blocks[i + 1] == blocks[1..][i];
      }
    }
  }

  /** A walk that entered `f` no longer ends anywhere; every other walk ends as before. */
  lemma {:induction false} ResolveWithout(t: Tree, f: nat, dir: Option<nat>, file: nat, parts: seq<string>)
    requires Inv(t) && f in t && file in t && file != f && AllNonEmpty(parts)
    ensures Visits(t, file, parts, f) ==> !Resolve(Emptied(t, f), dir, file, parts).Reached?
    ensures !Visits(t, file, parts, f) ==> Resolve(Emptied(t, f), dir, file, parts) == Resolve(t, dir, file, parts)
    decreases |parts|
  {
    if parts != [] && |parts[0]| < MAXNAMELEN && t[file].kind == Dir {
      LookupWithout(t, f, file, parts[0]);
      FindName(t, t[file].blocks, parts[0]);
      var r := Lookup(t, file, parts[0]);
      if r.Hit? && r.id != f { ResolveWithout(t, f, Some(file), r.id, parts[1..]); }
    }
  }

  /** The last record of a walk of at least one component is visited. */
  lemma {:induction false} EndIsVisited(t: Tree, dir: Option<nat>, file: nat, parts: seq<string>)
    requires file in t && Resolve(t, dir, file, parts).Reached?
    ensures parts == [] ==> Resolve(t, dir, file, parts) == Reached(dir, file)
    ensures parts != [] ==> Visits(t, file, parts, Resolve(t, dir, file, parts).file)
    decreases |parts|
  {
    if parts != [] {
      EndIsVisited(t, Some(file), Lookup(t, file, parts[0]).id, parts[1..]);
    }
  }

  /** Walks meet regular files only at their end. */
  lemma {:induction false} RegularOnlyEnds(t: Tree, dir: Option<nat>, file: nat, parts: seq<string>, f: nat)
    requires file in t && f in t && t[f].kind == Reg && Visits(t, file, parts, f)
    requires Resolve(t, dir, file, parts).Reached?
    ensures Resolve(t, dir, file, parts).file == f
    decreases |parts|
  {
    var id := Lookup(t, file, parts[0]).id;
    if id != f { RegularOnlyEnds(t, Some(file), id, parts[1..], f); }
  }

  /** When file_remove succeeds, and what each of its errors means; an error changes nothing. */
  lemma RemoveResult(t: Tree, path: string, force: bool, r: Option<Errno>, t': Tree)
    requires ROOT in t && (r, t') == FileRemove(t, path, force)
    ensures var v := ResolvePath(t, path);
      && (v.Reached? ==> v.file in t)
      && (r == None <==> v.Reached? && (t[v.file].kind == Reg || force))
      && (r == Some(IsDir) <==> v.Reached? && t[v.file].kind == Dir && !force)
      && (r == Some(Illegal) <==> v == BadPath) && (r == Some(IoFailed) <==> v == Failed)
      && (r == Some(Missing) <==> v == NotFound || v.Vacant?)
    ensures r != None ==> t' == t
  {
    var _ := WalkEnds(t, None, ROOT, Components(path));
  }

  /**
   file_remove of anything but the root: the path resolves no more, and another path resolves
   afterwards, to the same file, exactly when it did before without entering the removed
   record; for a regular file, exactly when it led to some other file.
   */
  lemma RemoveExact(t: Tree, path: string, force: bool, t': Tree, f: nat, other: string)
    requires Inv(t) && FileRemove(t, path, force) == (None, t')
    requires ResolvePath(t, path).Reached? && f == ResolvePath(t, path).file && Components(path) != []
    ensures ROOT in t' && !ResolvePath(t', path).Reached?
    ensures ResolvePath(t', other).Reached? <==>
              (ResolvePath(t, other).Reached? && !Visits(t, ROOT, Components(other), f))
    ensures !Visits(t, ROOT, Components(other), f) ==> ResolvePath(t', other) == ResolvePath(t, other)
    ensures t[f].kind == Reg && ResolvePath(t, other).Reached? ==>
              (ResolvePath(t', other).Reached? <==> ResolvePath(t, other).file != f)
  {
    NonEmptyAll(Split(path));
    NonEmptyAll(Split(other));
    EndIsVisited(t, None, ROOT, Components(path));
    NeverRoot(t, ROOT, Components(path));
    ResolveWithout(t, f, None, ROOT, Components(path));
    ResolveWithout(t, f, None, ROOT, Components(other));
    if ResolvePath(t, other).Reached? && t[f].kind == Reg {
      EndIsVisited(t, None, ROOT, Components(other));
      if Visits(t, ROOT, Components(other), f) {
        RegularOnlyEnds(t, None, ROOT, Components(other), f);
      }
    }
  }

  /** No walk comes back to the root. */
  lemma {:induction false} NeverRoot(t: Tree, file: nat, parts: seq<string>)
    requires Inv(t) && file in t
    ensures !Visits(t, file, parts, ROOT)
    decreases |parts|
  {
    if Visits(t, file, parts, ROOT) {
      var id := Lookup(t, file, parts[0]).id;
      FindMentions(t, t[file].blocks, parts[0]);
      var b, j := PlaceOf(t, file, id);
      assert Holds(t, file, b, j, id);
      NeverRoot(t, id, parts[1..]);
    }
  }

  /** Removing what was just created: exactly the paths that resolved before resolve, to the same files. */
  lemma RemoveUndoesCreate(t: Tree, kind: Kind, path: string, grown: Option<seq<nat>>, f: nat, t1: Tree,
                           force: bool, t2: Tree, other: string)
    requires Inv(t) && FreshRecords(t, grown) && (Ok(f), t1) == FileCreate(t, kind, path, grown)
    requires ROOT in t1 && FileRemove(t1, path, force) == (None, t2)
    ensures ROOT in t2
    ensures ResolvePath(t2, other).Reached? <==> ResolvePath(t, other).Reached?
    ensures ResolvePath(t, other).Reached? ==> ResolvePath(t2, other) == ResolvePath(t, other)
  {
    CreateKeeps(t, kind, path, grown);
    CreateResolves(t, kind, path, grown, f, t1, other);
    CreateAddsOne(t, kind, path, grown, f, t1, other);
    assert Components(path) != [];
    RemoveExact(t1, path, force, t2, f, other);
    if ResolvePath(t, other).Reached? && Visits(t1, ROOT, Components(other), f) {
      NonEmptyAll(Split(path));
      NonEmptyAll(Split(other));
      VacantFacts(t, None, ROOT, Components(path));
      var v := ResolvePath(t, path);
      AllocIsCreated(t, t1, v.place, kind, v.last, grown, f);
      OldWalkAvoids(t, t1, v.place, f, v.last, None, ROOT, Components(other));
      assert false;
    }
  }

  /** A walk that ended somewhere before the creation does not enter the new record. */
  lemma {:induction false} OldWalkAvoids(t: Tree, t': Tree, d: nat, f: nat, last: string,
                                         dir: Option<nat>, file: nat, parts: seq<string>)
    requires Inv(t) && Created(t, t', d, f, last) && Lookup(t, d, last) == Miss && AllNonEmpty(parts)
    requires file in t && file in t' && file != f && Resolve(t, dir, file, parts).Reached?
    ensures !Visits(t', file, parts, f)
    decreases |parts|
  {
    if parts != [] {
      LookupStays(t, t', d, f, last, file, parts[0]);
      FindName(t, t[file].blocks, parts[0]);
      OldWalkAvoids(t, t', d, f, last, Some(file), Lookup(t, file, parts[0]).id, parts[1..]);
    }
  }

  // ---- runs ----

  /** Retry: file_get_block finds a block for a place of a directory that had none. */
  datatype Op =
    | Create(kind: Kind, path: string, grown: Option<seq<nat>>)
    | Remove(path: string, force: bool)
    | Retry(dir: nat, b: nat, ids: seq<nat>)

  function Apply(t: Tree, op: Op): Tree
    requires ROOT in t
  {
    match op
    case Create(kind, path, grown) => FileCreate(t, kind, path, grown).1
    case Remove(path, force) => FileRemove(t, path, force).1
    case Retry(dir, b, ids) => Healed(t, dir, b, ids)
  }

  /** The records an operation brings into being were not records before. */
  ghost predicate NewRecords(t: Tree, op: Op) {
    && (op.Create? ==> FreshRecords(t, op.grown))
    && (op.Retry? ==> FreshRecords(t, Some(op.ids)))
  }

  ghost predicate Run(ts: seq<Tree>, ops: seq<Op>) {
    && |ts| == |ops| + 1
    && forall i | 0 <= i < |ops| ::
         && ROOT in ts[i] && ts[i + 1] == Apply(ts[i], ops[i])
         && NewRecords(ts[i], ops[i])
  }

  /** A missing block of a directory has been allocated: it holds unused records. */
  function Healed(t: Tree, dir: nat, b: nat, ids: seq<nat>): Tree {
    if dir in t && b < |t[dir].blocks| && t[dir].blocks[b].Bad?
    then AddRecords(t, ids)[dir := t[dir].(blocks := t[dir].blocks[b := Block(ids)])]
    else t
  }

  lemma HealKeeps(t: Tree, d: nat, b: nat, ids: seq<nat>)
    requires Inv(t) && FreshRecords(t, Some(ids))
    ensures Inv(Healed(t, d, b, ids))
  {
    hide Find, FreeSlot, FreeIn, FindIn;
    var t' := Healed(t, d, b, ids);
    if t' != t {
      forall dir: nat, c: nat, k: nat, id: nat
        ensures Holds(t', dir, c, k, id) <==>
                  (Holds(t, dir, c, k, id) || (dir == d && c == b && k < |ids| && ids[k] == id))
      {
      }
      forall dir: nat, c: nat, j: nat, dir': nat, c': nat, j': nat, id: nat
        | Holds(t', dir, c, j, id) && Holds(t', dir', c', j', id)
        ensures dir == dir' && c == c' && j == j'
      {
      }
      forall dir: nat, c: nat, k: nat, id: nat, c': nat, k': nat, id': nat
        | Holds(t', dir, c, k, id) && Holds(t', dir, c', k', id') && id in t' && id' in t'
        ensures t'[id].name != "" && t'[id].name == t'[id'].name ==> id == id'
      {
      }
    }
  }

  /** A hit lies before the first block that cannot be read. */
  lemma {:induction false} FindHealed(t: Tree, t': Tree, blocks: seq<DirBlock>, b: nat, ids: seq<nat>, name: string)
    requires b < |blocks| && blocks[b].Bad? && Closed(t, blocks) && Find(t, blocks, name).Hit?
    requires forall id :: id in t ==> id in t' && t'[id].name == t[id].name
    ensures Find(t', blocks[b := Block(ids)], name) == Find(t, blocks, name)
  {
    FoundAlike(t, t', blocks[0].files, name);
    forall i | 0 <= i < |blocks[1..]|
      ensures blocks[1..][i] == blocks[i + 1]
    {
    }
    if FindIn(t, blocks[0].files, name).None? {
      FindHealed(t, t', blocks[1..], b - 1, ids, name);
      assert blocks[b := Block(ids)][1..] == blocks[1..][b - 1 := Block(ids)];
    }
  }

  lemma {:induction false} FoundAlike(t: Tree, t': Tree, files: seq<nat>, name: string)
    requires (forall j :: 0 <= j < |files| ==> files[j] in t)
    requires forall id :: id in t ==> id in t' && t'[id].name == t[id].name
    ensures FindIn(t', files, name) == FindIn(t, files, name)
  {
    if files != [] { FoundAlike(t, t', files[1..], name); }
  }

  lemma {:induction false} FoundAlikeAll(t: Tree, t': Tree, blocks: seq<DirBlock>, name: string)
    requires Closed(t, blocks) && forall id :: id in t ==> id in t' && t'[id].name == t[id].name
    ensures Find(t', blocks, name) == Find(t, blocks, name)
  {
    if blocks != [] && blocks[0].Block? {
      FoundAlike(t, t', blocks[0].files, name);
      forall i | 0 <= i < |blocks[1..]|
        ensures blocks[1..][i] == blocks[i + 1]
      {
      }
      FoundAlikeAll(t, t', blocks[1..], name);
    }
  }

  lemma {:induction false} HealStays(t: Tree, d: nat, b: nat, ids: seq<nat>, dir: Option<nat>, file: nat,
                                     parts: seq<string>)
    requires Inv(t) && FreshRecords(t, Some(ids)) && file in t && Resolve(t, dir, file, parts).Reached?
    ensures file in Healed(t, d, b, ids)
    ensures Resolve(Healed(t, d, b, ids), dir, file, parts) == Resolve(t, dir, file, parts)
    decreases |parts|
  {
    var t' := Healed(t, d, b, ids);
    if parts != [] && t' != t {
      ClosedDirs(t, file);
      if file == d {
        FindHealed(t, t', t[d].blocks, b, ids, parts[0]);
      } else {
        FoundAlikeAll(t, t', t[file].blocks, parts[0]);
      }
      HealStays(t, d, b, ids, Some(file), Lookup(t, file, parts[0]).id, parts[1..]);
    }
  }

  /** Every run of creations and removals keeps the directory tree well formed. */
  lemma {:induction false} RunKeeps(ts: seq<Tree>, ops: seq<Op>, k: nat)
    requires Run(ts, ops) && Inv(ts[0]) && k < |ts|
    ensures Inv(ts[k])
  {
    if k > 0 {
      RunKeeps(ts, ops, k - 1);
      var op := ops[k - 1];
      match op
      case Create(kind, path, grown) => CreateKeeps(ts[k - 1], kind, path, grown);
      case Remove(path, force) => RemoveKeeps(ts[k - 1], path, force);
      case Retry(dir, b, ids) => HealKeeps(ts[k - 1], dir, b, ids);
    }
  }

  /** The step removes a record that the path goes through. */
  ghost predicate CutsPath(t: Tree, op: Op, path: string)
    requires ROOT in t
  {
    op.Remove? && FileRemove(t, op.path, op.force).0.None? &&
    var r := ResolvePath(t, op.path);
    r.Reached? && (Components(op.path) == [] || Visits(t, ROOT, Components(path), r.file))
  }

  /** A path keeps leading to the same file for as long as no removal cuts it. */
  lemma {:induction false} PathSurvives(ts: seq<Tree>, ops: seq<Op>, path: string, k: nat)
    requires Run(ts, ops) && Inv(ts[0]) && k < |ts| && ResolvePath(ts[0], path).Reached?
    requires forall i | 0 <= i < k :: !CutsPath(ts[i], ops[i], path)
    ensures ROOT in ts[k] && ResolvePath(ts[k], path) == ResolvePath(ts[0], path)
  {
    RunKeeps(ts, ops, k);
    if k > 0 {
      PathSurvives(ts, ops, path, k - 1);
      RunKeeps(ts, ops, k - 1);
      StepSurvives(ts[k - 1], ops[k - 1], path);
    }
  }

  lemma StepSurvives(t: Tree, op: Op, path: string)
    requires Inv(t) && NewRecords(t, op)
    requires ResolvePath(t, path).Reached? && !CutsPath(t, op, path)
    ensures ROOT in Apply(t, op) && ResolvePath(Apply(t, op), path) == ResolvePath(t, path)
  {
    match op
    case Create(kind, p, grown) =>
      var r := FileCreate(t, kind, p, grown);
      if r.0.Ok? {
        CreateResolves(t, kind, p, grown, r.0.file, r.1, path);
      } else {
        FailedCreateStays(t, kind, p, grown, path);
      }
    case Remove(p, force) =>
      var r := FileRemove(t, p, force);
      if r.0.None? {
        RemoveExact(t, p, force, r.1, ResolvePath(t, p).file, path);
      }
    case Retry(dir, b, ids) => HealStays(t, dir, b, ids, None, ROOT, Components(path));
  }

  /**
   A failed file_create changes the tree if and only if the name was missing from a directory
   that is full and no block can be had. Then the directory has one more block, which is not
   there: whatever name it lacked can no longer be looked up, and other names are found as before.
   */
  lemma FailedCreateChanges(t: Tree, kind: Kind, path: string, grown: Option<seq<nat>>, name: string)
    requires Inv(t) && FileCreate(t, kind, path, grown).0.Err?
    ensures var t' := FileCreate(t, kind, path, grown).1;
      var v := ResolvePath(t, path);
      && (t' != t <==> v.Vacant? && v.place in t && FreeSlot(t, t[v.place].blocks) == Full &&
                       (grown.None? || grown.value == []))
      && (t' != t ==>
            && v.place in t' && t'[v.place].blocks == t[v.place].blocks + [Bad]
            && Lookup(t', v.place, name) ==
                 if Lookup(t, v.place, name) == Miss then IoError else Lookup(t, v.place, name))
  {
    var t' := FileCreate(t, kind, path, grown).1;
    var v := ResolvePath(t, path);
    if v.Vacant? && v.place in t {
      FreeSlotFacts(t, t[v.place].blocks);
      if FreeSlot(t, t[v.place].blocks) == Full && (grown.None? || grown.value == []) {
        assert |t'[v.place].blocks| == |t[v.place].blocks| + 1;
        SameNames(t, t', t[v.place].blocks, name);
        FindAppend(t', t[v.place].blocks, Bad, name);
      }
    }
  }

  /** A full disk and an empty root: creating "a" fails as "not found", and again as an I/O error. */
  lemma FullDiskExample()
    ensures var t: Tree := map[ROOT := File("/", Dir, [])];
      var r := FileCreate(t, Reg, "a", None);
      && Inv(t) && r.0 == Err(Missing) && r.1 != t
      && ROOT in r.1 && FileCreate(r.1, Reg, "a", None) == (Err(IoFailed), r.1)
  {
    var t: Tree := map[ROOT := File("/", Dir, [])];
    SplitPlain("a");
    assert NonEmpty(["a"]) == ["a"] + NonEmpty(["a"][1..]);
    assert Components("a") == ["a"];
    assert ResolvePath(t, "a") == Vacant(ROOT, "a");
    var t' := t[ROOT := t[ROOT].(blocks := [] + [Bad])];
    assert FileCreate(t, Reg, "a", None) == (Err(Missing), t');
    assert t'[ROOT].blocks != t[ROOT].blocks;
    assert ResolvePath(t', "a") == Failed;
  }

  /** Even when the directory has grown in vain, what resolved before still does. */
  lemma FailedCreateStays(t: Tree, kind: Kind, path: string, grown: Option<seq<nat>>, other: string)
    requires Inv(t) && FreshRecords(t, grown) && FileCreate(t, kind, path, grown).0.Err?
    requires ResolvePath(t, other).Reached?
    ensures var t' := FileCreate(t, kind, path, grown).1;
      ROOT in t' && ResolvePath(t', other) == ResolvePath(t, other)
  {
    var t' := FileCreate(t, kind, path, grown).1;
    if t' != t {
      NonEmptyAll(Split(path));
      VacantFacts(t, None, ROOT, Components(path));
      var d := ResolvePath(t, path).place;
      FreeSlotFacts(t, t[d].blocks);
      assert t' == t[d := t[d].(blocks := t[d].blocks + [Bad])];
      GrownStays(t, d, None, ROOT, Components(other));
    }
  }

  lemma {:induction false} GrownStays(t: Tree, d: nat, dir: Option<nat>, file: nat, parts: seq<string>)
    requires d in t && file in t && Resolve(t, dir, file, parts).Reached?
    ensures Resolve(t[d := t[d].(blocks := t[d].blocks + [Bad])], dir, file, parts) == Resolve(t, dir, file, parts)
    decreases |parts|
  {
    if parts != [] {
      var t' := t[d := t[d].(blocks := t[d].blocks + [Bad])];
      assert NamesSame(t, t', t[file].blocks, d);
      SameNames(t, t', t[file].blocks, parts[0]);
      FindAppend(t', t[d].blocks, Bad, parts[0]);
      GrownStays(t, d, Some(file), Lookup(t, file, parts[0]).id, parts[1..]);
    }
  }

  lemma {:induction false} SameNames(t: Tree, t': Tree, blocks: seq<DirBlock>, name: string)
    requires forall id :: (id in t <==> id in t') && (id in t ==> t'[id].name == t[id].name)
    ensures Find(t', blocks, name) == Find(t, blocks, name)
  {
    if blocks != [] && blocks[0].Block? {
      SameNamesIn(t, t', blocks[0].files, name);
      SameNames(t, t', blocks[1..], name);
    }
  }

  lemma {:induction false} SameNamesIn(t: Tree, t': Tree, ids: seq<nat>, name: string)
    requires forall id :: (id in t <==> id in t') && (id in t ==> t'[id].name == t[id].name)
    ensures FindIn(t', ids, name) == FindIn(t, ids, name)
  {
    if ids != [] { SameNamesIn(t, t', ids[1..], name); }
  }

  // ---- the operations as the server performs them ----

  /** The directory records of the mounted disk, changed in place. */
  class Namespace {
    var tree: Tree

    constructor (t: Tree)
      ensures tree == t
    {
      tree := t;
    }

    /** dir_alloc_file: scans the blocks for an unused record, then grows the directory. */
    method DirAlloc(dir: nat, grown: Option<seq<nat>>) returns (f: Option<nat>)
      requires dir in tree
      modifies this
      ensures (f, tree) == DirAllocFile(old(tree), dir, grown)
    {
      var blocks := tree[dir].blocks;
      var i := 0;
      while i < |blocks|
        invariant 0 <= i <= |blocks| && tree == old(tree)
        invariant FreeSlot(tree, blocks) == FreeSlot(tree, blocks[i..])
      {
        if blocks[i].Bad? {
          return None;
        }
        var files := blocks[i].files;
        var j := 0;
        while j < |files|
          invariant 0 <= j <= |files|
          invariant FreeIn(tree, files) == FreeIn(tree, files[j..])
        {
          if files[j] in tree && tree[files[j]].name == "" {
            return Some(files[j]);
          }
          assert files[j..][1..] == files[j + 1..];
          j := j + 1;
        }
        assert blocks[i..][1..] == blocks[i + 1..];
        i := i + 1;
      }
      if grown.None? || grown.value == [] {
        tree := tree[dir := tree[dir].(blocks := blocks + [Bad])];
        return None;
      }
      tree := AddRecords(tree, grown.value)[dir := tree[dir].(blocks := blocks + [Block(grown.value)])];
      return Some(grown.value[0]);
    }

    /** file_create: the tree stays well formed and a success makes the path lead to the new file. */
    method Create(kind: Kind, path: string, grown: Option<seq<nat>>) returns (r: Result)
      requires Inv(tree) && FreshRecords(tree, grown)
      modifies this
      ensures Inv(tree) && (r, tree) == FileCreate(old(tree), kind, path, grown)
      ensures r.Ok? ==> ResolvePath(tree, path).Reached? && ResolvePath(tree, path).file == r.file
    {
      CreateKeeps(tree, kind, path, grown);
      ghost var before := tree;
      var w := WalkPath(tree, path);
      match w {
        case Reached(_, _) =>
          return Err(Exists);
        case NotFound =>
          return Err(Missing);
        case BadPath =>
          return Err(Illegal);
        case Failed =>
          return Err(IoFailed);
        case Vacant(dir, last) =>
          if dir !in tree {
            return Err(Missing);
          }
          var f := DirAlloc(dir, grown);
          if f.None? || f.value !in tree {
            return Err(Missing);
          }
          tree := tree[f.value := tree[f.value].(kind := kind, name := last)];
          CreateResolves(before, kind, path, grown, f.value, tree, path);
          return Ok(f.value);
      }
    }

    /** file_remove: the tree stays well formed and, the root aside, a success unlinks the path. */
    method Remove(path: string, force: bool) returns (e: Option<Errno>)
      requires Inv(tree)
      modifies this
      ensures Inv(tree) && (e, tree) == FileRemove(old(tree), path, force)
      ensures e.None? && Components(path) != [] ==> !ResolvePath(tree, path).Reached?
    {
      RemoveKeeps(tree, path, force);
      ghost var before := tree;
      var w := WalkPath(tree, path);
      match w {
        case NotFound =>
          return Some(Missing);
        case Vacant(_, _) =>
          return Some(Missing);
        case BadPath =>
          return Some(Illegal);
        case Failed =>
          return Some(IoFailed);
        case Reached(_, f) =>
          if f !in tree {
            return Some(Missing);
          }
          if tree[f].kind == Dir && !force {
            return Some(IsDir);
          }
          tree := Emptied(tree, f);
          if Components(path) != [] {
            RemoveExact(before, path, force, tree, f, path);
          }
          return None;
      }
    }
  }
}

// The ext2 read path of src/lib/machine/ext2fs: a mount point with one block
// buffer, shared by inode reads, block followers and directory searches.
module Ext2 {
  type Byte = b: nat | b < 256

  const BLOCK_SIZE: nat := 2048
  const INDEXES_PER_BLOCK: nat := 512
  const SNGL_IND: nat := 12
  const TRIP_IND: nat := 14
  // What the block follower can reach.
  const REACH: nat := SNGL_IND + INDEXES_PER_BLOCK

  type Block = s: seq<Byte> | |s| == BLOCK_SIZE witness seq(BLOCK_SIZE, _ => 0)

  datatype Option<T> = None | Some(value: T)

  // A block device: a block's contents, or none where reading fails.
  type Device = nat -> Option<Block>

  // Numbers are stored least significant byte first.
  function Le16(b: seq<Byte>, i: nat): nat
    requires i + 2 <= |b|
  {
    var lo: nat, hi: nat := b[i], b[i + 1];
    lo + 0x100 * hi
  }

  function Le32(b: seq<Byte>, i: nat): nat
    requires i + 4 <= |b|
  {
    Le16(b, i) + 0x1_0000 * Le16(b, i + 2)
  }

  // ----- the file system ----------------------------------------------------------

  datatype Geometry = Geometry(inodesPerGroup: nat, inodeSize: nat, blocksPerGroup: nat, tables: seq<nat>) {
    // Inodes do not straddle blocks.
    ghost predicate Ok() {
      inodesPerGroup > 0 && inodeSize >= 128 && BLOCK_SIZE % inodeSize == 0
    }

    // inode_num - 1 in 32 bits
    function Index(inode: nat): nat { if inode == 0 then 0xffff_ffff else inode - 1 }

    function Group(inode: nat): nat
      requires inodesPerGroup > 0
    {
      Index(inode) / inodesPerGroup
    }

    function Distance(inode: nat): nat
      requires inodesPerGroup > 0
    {
      Index(inode) % inodesPerGroup * inodeSize
    }

    function BlockOf(inode: nat): nat
      requires inodesPerGroup > 0 && Group(inode) < |tables|
    {
      Distance(inode) / BLOCK_SIZE + Group(inode) * blocksPerGroup + tables[Group(inode)]
    }
  }

  type BlockNumbers = s: seq<nat> | |s| == 15 witness seq(15, _ => 0)

  // An inode, as far as it is brought into the order of the machine's bytes.
  datatype Inode = Inode(
    mode: nat, uid: nat, size: nat, atime: nat, ctime: nat, mtime: nat, dtime: nat, gid: nat, linksCount: nat,
    blocks: nat, flags: nat, osdl: nat, block: BlockNumbers,
    generation: nat, fileAcl: nat, dirAcl: nat, faddr: nat)

  function BlockNumbersAt(b: Block, at: nat): BlockNumbers
    requires at + 60 <= BLOCK_SIZE
  {
    seq(15, i requires 0 <= i < 15 => Le32(b, at + 4 * i))
  }

  function InodeAt(b: Block, at: nat): Inode
    requires at + 128 <= BLOCK_SIZE
  {
    Inode(Le16(b, at), Le16(b, at + 2), Le32(b, at + 4),
          Le32(b, at + 8), Le32(b, at + 12), Le32(b, at + 16), Le32(b, at + 20),
          Le16(b, at + 24), Le16(b, at + 26), Le32(b, at + 28), Le32(b, at + 32), Le32(b, at + 36),
          BlockNumbersAt(b, at + 40),
          Le32(b, at + 100), Le32(b, at + 104), Le32(b, at + 108), Le32(b, at + 112))
  }

  lemma Remainder(j: nat, r: nat)
    requires r < BLOCK_SIZE
    ensures (j * BLOCK_SIZE + r) % BLOCK_SIZE == r
  {
  }

  // A multiple of a block's divisor stays one inside the block.
  lemma MultipleOf(d: nat, k: nat, size: nat, q: nat)
    requires d == k * size && q * size == BLOCK_SIZE && size > 0
    ensures d % BLOCK_SIZE + size <= BLOCK_SIZE
  {
    var r, j := k % q, k / q;
    calc {
      d;
      (j * q + r) * size;
      j * (q * size) + r * size;
      j * BLOCK_SIZE + r * size;
    }
    assert (r + 1) * size <= q * size;
    assert r * size < BLOCK_SIZE;
    Remainder(j, r * size);
  }

  lemma InodeFits(g: Geometry, inode: nat)
    requires g.Ok()
    ensures g.Distance(inode) % BLOCK_SIZE + 128 <= BLOCK_SIZE
  {
    var q := BLOCK_SIZE / g.inodeSize;
    var d := g.Distance(inode);
    assert q * g.inodeSize == BLOCK_SIZE;
    MultipleOf(d, g.Index(inode) % g.inodesPerGroup, g.inodeSize, q);
  }

  // The inode of that number, where it can be read.
  function InodeOf(disk: Device, g: Geometry, inode: nat): Option<Inode>
    requires g.Ok()
  {
    if g.Group(inode) >= |g.tables| then None
    else
      match disk(g.BlockOf(inode))
      case None => None
      case Some(b) =>
        InodeFits(g, inode);
        Some(InodeAt(b, g.Distance(inode) % BLOCK_SIZE))
  }

  // The number of a file's k-th block: twelve direct ones, then those in the
  // single indirect block, then nothing. Zero ends a file.
  function BlockMap(disk: Device, inode: Inode, k: nat): nat {
    if k < SNGL_IND then inode.block[k]
    else
      var table := disk(inode.block[SNGL_IND]);
      if k < REACH && table.Some? then Le32(table.value, 4 * (k - SNGL_IND)) else 0
  }

  // ----- directories ----------------------------------------------------------------

  datatype Entry = Entry(inode: nat, fileType: Byte, name: seq<Byte>)

  function RecLen(b: Block, off: nat): nat
    requires off + 8 <= BLOCK_SIZE
  {
    Le16(b, off + 4)
  }

  // From `off` on the block is cut into records whose names fit into them.
  predicate Records(b: Block, off: nat)
    requires off <= BLOCK_SIZE
    decreases BLOCK_SIZE - off
  {
    off == BLOCK_SIZE ||
    (off + 8 <= BLOCK_SIZE && 8 + b[off + 6] <= RecLen(b, off) && off + RecLen(b, off) <= BLOCK_SIZE &&
     Records(b, off + RecLen(b, off)))
  }

  function EntryAt(b: Block, off: nat): Entry
    requires off + 8 <= BLOCK_SIZE && off + 8 + b[off + 6] <= BLOCK_SIZE
  {
    Entry(Le32(b, off), b[off + 7], b[off + 8..off + 8 + b[off + 6]])
  }

  function Entries(b: Block, off: nat): seq<Entry>
    requires off <= BLOCK_SIZE && Records(b, off)
    decreases BLOCK_SIZE - off
  {
    if off == BLOCK_SIZE then [] else [EntryAt(b, off)] + Entries(b, off + RecLen(b, off))
  }

  // From its k-th block on the directory can be read and is cut into records.
  ghost predicate WellFormed(disk: Device, dir: Inode, k: nat)
    requires k <= REACH
    decreases REACH - k
  {
    var n := BlockMap(disk, dir, k);
    n == 0 || k == REACH ||
    (disk(n).Some? && Records(disk(n).value, 0) && WellFormed(disk, dir, k + 1))
  }

  // All its entries from there on, in block map order.
  ghost function AllEntries(disk: Device, dir: Inode, k: nat): seq<Entry>
    requires k <= REACH && WellFormed(disk, dir, k)
    decreases REACH - k
  {
    var n := BlockMap(disk, dir, k);
    if n == 0 || k == REACH then [] else Entries(disk(n).value, 0) + AllEntries(disk, dir, k + 1)
  }

  // The first entry of that name.
  function FirstMatch(es: seq<Entry>, name: seq<Byte>): Option<Entry> {
    if es == [] then None else if es[0].name == name then Some(es[0]) else FirstMatch(es[1..], name)
  }

  lemma {:induction false} FirstMatchConcat(a: seq<Entry>, b: seq<Entry>, name: seq<Byte>)
    ensures FirstMatch(a + b, name) ==
            if FirstMatch(a, name).Some? then FirstMatch(a, name) else FirstMatch(b, name)
  {
    if a == [] {
      assert a + b == b;
    } else {
      assert (a + b)[1..] == a[1..] + b;
      FirstMatchConcat(a[1..], b, name);
    }
  }

  // It is the one no other entry of that name comes before.
  lemma {:induction false} FirstMatchIsFirst(es: seq<Entry>, name: seq<Byte>)
    ensures match FirstMatch(es, name)
            case None => forall i | 0 <= i < |es| :: es[i].name != name
            case Some(e) =>
              exists i :: 0 <= i < |es| && es[i] == e && e.name == name && forall j | 0 <= j < i :: es[j].name != name
  {
    if es != [] && es[0].name != name {
      FirstMatchIsFirst(es[1..], name);
      assert forall j | 0 < j < |es| :: es[j] == es[1..][j - 1];
      if FirstMatch(es[1..], name).Some? {
        var e := FirstMatch(es[1..], name).value;
        var i :| 0 <= i < |es[1..]| && es[1..][i] == e && e.name == name
                 && forall j | 0 <= j < i :: es[1..][j].name != name;
        assert es[i + 1] == e && forall j | 0 <= j < i + 1 :: es[j].name != name;
      }
    }
  }

  // ----- what a search looks at -------------------------------------------------------

  // From `off` on, the walk for an entry of that name stays inside the block and
  // gets on, at least as far as that entry.
  predicate Walks(b: Block, off: nat, name: seq<Byte>)
    decreases BLOCK_SIZE - off
  {
    off >= BLOCK_SIZE ||
    (off + 8 <= BLOCK_SIZE && off + 8 + b[off + 6] <= BLOCK_SIZE &&
     (EntryAt(b, off).name == name || (RecLen(b, off) > 0 && Walks(b, off + RecLen(b, off), name))))
  }

  // The entries met on the way, up to that one.
  function Visited(b: Block, off: nat, name: seq<Byte>): seq<Entry>
    requires Walks(b, off, name)
    decreases BLOCK_SIZE - off
  {
    if off >= BLOCK_SIZE then []
    else
      var e := EntryAt(b, off);
      [e] + if e.name == name then [] else Visited(b, off + RecLen(b, off), name)
  }

  lemma VisitedStep(b: Block, off: nat, name: seq<Byte>)
    requires Walks(b, off, name) && off < BLOCK_SIZE
    ensures var e := EntryAt(b, off);
            FirstMatch(Visited(b, off, name), name)
            == if e.name == name then Some(e) else FirstMatch(Visited(b, off + RecLen(b, off), name), name)
  {
    var e := EntryAt(b, off);
    if e.name != name {
      assert Visited(b, off, name)[1..] == Visited(b, off + RecLen(b, off), name);
    }
  }

  // In a block cut into records it does, and meets what there is.
  lemma {:induction false} RecordsWalk(b: Block, off: nat, name: seq<Byte>)
    requires off <= BLOCK_SIZE && Records(b, off)
    ensures Walks(b, off, name)
    ensures FirstMatch(Visited(b, off, name), name) == FirstMatch(Entries(b, off), name)
    decreases BLOCK_SIZE - off
  {
    if off < BLOCK_SIZE {
      var next := off + RecLen(b, off);
      RecordsWalk(b, next, name);
      VisitedStep(b, off, name);
      assert Entries(b, off)[1..] == Entries(b, next);
    }
  }

  // From its k-th block on, each block of the directory can be read and walked,
  // at least as far as an entry of that name.
  ghost predicate Searchable(disk: Device, dir: Inode, k: nat, name: seq<Byte>)
    requires k <= REACH
    decreases REACH - k
  {
    var n := BlockMap(disk, dir, k);
    n == 0 || k == REACH ||
    (disk(n).Some? && Walks(disk(n).value, 0, name) &&
     (FirstMatch(Visited(disk(n).value, 0, name), name).Some? || Searchable(disk, dir, k + 1, name)))
  }

  // The entries looked at, in block map order.
  ghost function LookedAt(disk: Device, dir: Inode, k: nat, name: seq<Byte>): seq<Entry>
    requires k <= REACH && Searchable(disk, dir, k, name)
    decreases REACH - k
  {
    var n := BlockMap(disk, dir, k);
    if n == 0 || k == REACH then []
    else
      var es := Visited(disk(n).value, 0, name);
      es + if FirstMatch(es, name).Some? then [] else LookedAt(disk, dir, k + 1, name)
  }

  // One step of the walk over the blocks.
  lemma NextVisited(disk: Device, dir: Inode, k: nat, name: seq<Byte>)
    requires k < REACH && Searchable(disk, dir, k, name) && BlockMap(disk, dir, k) != 0
    ensures var b := disk(BlockMap(disk, dir, k));
            && b.Some? && Walks(b.value, 0, name)
            && var m := FirstMatch(Visited(b.value, 0, name), name);
               && (m.None? ==> Searchable(disk, dir, k + 1, name))
               && FirstMatch(LookedAt(disk, dir, k, name), name)
               == if m.Some? then m else FirstMatch(LookedAt(disk, dir, k + 1, name), name)
  {
    var es := Visited(disk(BlockMap(disk, dir, k)).value, 0, name);
    if FirstMatch(es, name).Some? {
      assert es + [] == es;
    } else {
      FirstMatchConcat(es, LookedAt(disk, dir, k + 1, name), name);
    }
  }

  // A directory cut into records can be searched for any name, and what is met
  // first is the first of all its entries of that name.
  lemma {:induction false} WholeDirectory(disk: Device, dir: Inode, k: nat, name: seq<Byte>)
    requires k <= REACH && WellFormed(disk, dir, k)
    ensures Searchable(disk, dir, k, name)
    ensures FirstMatch(LookedAt(disk, dir, k, name), name) == FirstMatch(AllEntries(disk, dir, k), name)
    decreases REACH - k
  {
    var n := BlockMap(disk, dir, k);
    if n != 0 && k < REACH {
      var b := disk(n).value;
      RecordsWalk(b, 0, name);
      WholeDirectory(disk, dir, k + 1, name);
      NextVisited(disk, dir, k, name);
      FirstMatchConcat(Entries(b, 0), AllEntries(disk, dir, k + 1), name);
    }
  }

  // ----- the mount point and its one block buffer -----------------------------------

  class Mount {
    const disk: Device
    const geometry: Geometry
    var buffer: Block
    var blockInBuffer: nat
    var bufferValid: bool

    // A valid buffer is the block it is tagged with.
    ghost predicate Coherent()
      reads this
    {
      geometry.Ok() && (bufferValid ==> disk(blockInBuffer) == Some(buffer))
    }

    // ext2_mount leaves the superblock's block in the buffer, and no tag.
    constructor (disk: Device, geometry: Geometry, superblock: Block)
      requires geometry.Ok()
      ensures Coherent() && this.disk == disk && this.geometry == geometry
    {
      this.disk := disk;
      this.geometry := geometry;
      buffer := superblock;
      blockInBuffer := 0;
      bufferValid := false;
    }

    // ext2_read_block: a failed read may leave anything in the buffer.
    method ReadBlock(block: nat) returns (ok: bool)
      modifies this`buffer
      ensures ok == disk(block).Some?
      ensures ok ==> buffer == disk(block).value
    {
      match disk(block)
      case Some(b) =>
        buffer := b;
        ok := true;
      case None =>
        var junk: Block := *;
        buffer := junk;
        ok := false;
    }

    method ReadFsBlock(block: nat, force: bool) returns (ok: bool)
      requires Coherent()
      modifies this
      ensures Coherent()
      ensures ok == disk(block).Some? && ok == (bufferValid && blockInBuffer == block)
      ensures ok ==> buffer == disk(block).value
    {
      if !force && blockInBuffer == block && bufferValid {
        return true;
      }
      ok := ReadBlock(block);
      if ok {
        blockInBuffer := block;
        bufferValid := true;
      } else {
        bufferValid := false;
      }
    }

    method GetInode(inode: nat) returns (found: Option<Inode>)
      requires Coherent()
      modifies this
      ensures Coherent()
      ensures found == InodeOf(disk, geometry, inode)
    {
      var group := geometry.Group(inode);
      if group >= |geometry.tables| {
        return None;
      }
      var distance := geometry.Distance(inode);
      var block := distance / BLOCK_SIZE + group * geometry.blocksPerGroup + geometry.tables[group];
      var ok := ReadFsBlock(block, false);
      if !ok {
        return None;
      }
      InodeFits(geometry, inode);
      return Some(InodeAt(buffer, distance % BLOCK_SIZE));
    }
  }

  // ----- the block follower -----------------------------------------------------------

  class Follower {
    const mount: Mount
    const inode: Inode
    var direct: nat
    var single: nat

    // How far it has come.
    ghost function Position(): nat
      reads this
    {
      if direct < SNGL_IND then direct else if direct == SNGL_IND then SNGL_IND + single else REACH
    }

    ghost predicate Valid()
      reads this
    {
      single < INDEXES_PER_BLOCK && (direct != SNGL_IND ==> single == 0)
    }

    constructor (mount: Mount, inode: Inode)
      ensures Valid() && Position() == 0 && this.mount == mount && this.inode == inode
    {
      this.mount := mount;
      this.inode := inode;
      direct := 0;
      single := 0;
    }

    // A follower whose indirect block cannot be read stays where it is.
    ghost function NextPosition(): nat
      reads this
    {
      var p := Position();
      if p < SNGL_IND || (p < REACH && mount.disk(inode.block[SNGL_IND]).Some?) then p + 1 else p
    }

    method NextBlock() returns (block: nat)
      requires Valid() && mount.Coherent()
      modifies this, mount
      ensures Valid() && mount.Coherent()
      ensures block == BlockMap(mount.disk, inode, old(Position()))
      ensures Position() == old(NextPosition())
    {
      if direct > TRIP_IND {
        return 0;
      }
      if direct < SNGL_IND {
        block := inode.block[direct];
        direct := direct + 1;
      } else if direct == SNGL_IND {
        var ok := mount.ReadFsBlock(inode.block[SNGL_IND], true);
        if !ok {
          return 0;
        }
        block := Le32(mount.buffer, 4 * single);
        single := single + 1;
        if single >= INDEXES_PER_BLOCK {
          direct := direct + 1;
          single := 0;
        }
      } else {
        return 0;
      }
    }

    // A call on a follower k blocks on its way.
    method Follow(ghost k: nat) returns (block: nat)
      requires Valid() && mount.Coherent() && Position() == k
      modifies this, mount
      ensures Valid() && mount.Coherent()
      ensures block == BlockMap(mount.disk, inode, k) && (block != 0 ==> Position() == k + 1)
    {
      block := NextBlock();
    }

    // The first n calls on a fresh follower give the first n entries of the map,
    // for any n.
    method Collect(n: nat) returns (blocks: seq<nat>)
      requires Valid() && mount.Coherent() && Position() == 0
      modifies this, mount
      ensures mount.Coherent()
      ensures |blocks| == n && forall k | 0 <= k < n :: blocks[k] == BlockMap(mount.disk, inode, k)
    {
      blocks := [];
      for k := 0 to n
        invariant Valid() && mount.Coherent() && |blocks| == k
        invariant Position() == k || (SNGL_IND <= Position() < k && BlockMap(mount.disk, inode, Position()) == 0)
        invariant SNGL_IND <= Position() < k ==> Position() == REACH || mount.disk(inode.block[SNGL_IND]).None?
        invariant forall j | 0 <= j < k :: blocks[j] == BlockMap(mount.disk, inode, j)
      {
        var block := NextBlock();
        blocks := blocks + [block];
      }
    }
  }

  // ----- searching a directory ----------------------------------------------------------

  method NamesMatch(target: seq<Byte>, possible: seq<Byte>) returns (same: bool)
    ensures same == (target == possible)
  {
    if |target| != |possible| {
      return false;
    }
    for i := 0 to |possible|
      invariant target[..i] == possible[..i]
    {
      if target[i] != possible[i] {
        return false;
      }
    }
    assert target == target[..|possible|] && possible == possible[..|possible|];
    return true;
  }

  // The walk over the records of the buffered block.
  method ScanBuffer(mount: Mount, target: seq<Byte>) returns (found: Option<Entry>)
    requires Walks(mount.buffer, 0, target)
    ensures found == FirstMatch(Visited(mount.buffer, 0, target), target)
  {
    var offset := 0;
    ghost var goal := FirstMatch(Visited(mount.buffer, 0, target), target);
    while offset < BLOCK_SIZE
      invariant Walks(mount.buffer, offset, target)
      invariant goal == FirstMatch(Visited(mount.buffer, offset, target), target)
      decreases BLOCK_SIZE - offset
    {
      VisitedStep(mount.buffer, offset, target);
      var ent := EntryAt(mount.buffer, offset);
      var same := NamesMatch(target, ent.name);
      if same {
        return Some(ent);
      }
      offset := offset + RecLen(mount.buffer, offset);
    }
    return None;
  }

  // The kinds of file the virtual file system tells apart.
  datatype Kind = Directory | Regular | Unknown

  function KindOf(fileType: Byte): Kind {
    if fileType == 2 then Directory else if fileType == 1 then Regular else Unknown
  }

  // The entry e2_search is after, for a non-empty name.
  ghost function Match(disk: Device, g: Geometry, dir: nat, name: seq<Byte>): Option<Entry>
    requires g.Ok()
    requires InodeOf(disk, g, dir).Some? ==> Searchable(disk, InodeOf(disk, g, dir).value, 0, name)
  {
    var inode := InodeOf(disk, g, dir);
    if inode.None? then None else FirstMatch(LookedAt(disk, inode.value, 0, name), name)
  }

  // One block of a directory.
  method SearchBlock(mount: Mount, block: nat, ghost dir: Inode, ghost k: nat, name: seq<Byte>)
    returns (found: Option<Entry>)
    requires mount.Coherent() && k < REACH && Searchable(mount.disk, dir, k, name)
    requires name != [] && block == BlockMap(mount.disk, dir, k) != 0
    modifies mount
    ensures mount.Coherent() && (found.None? ==> Searchable(mount.disk, dir, k + 1, name))
    ensures FirstMatch(LookedAt(mount.disk, dir, k, name), name)
         == if found.Some? then found else FirstMatch(LookedAt(mount.disk, dir, k + 1, name), name)
  {
    NextVisited(mount.disk, dir, k, name);
    var ok := mount.ReadFsBlock(block, false);
    found := ScanBuffer(mount, name);
  }

  // The loop over the blocks of a directory.
  method SearchBlocks(mount: Mount, dir: Inode, name: seq<Byte>) returns (found: Option<Entry>)
    requires mount.Coherent() && Searchable(mount.disk, dir, 0, name) && name != []
    modifies mount
    ensures mount.Coherent() && found == FirstMatch(LookedAt(mount.disk, dir, 0, name), name)
  {
    ghost var goal := FirstMatch(LookedAt(mount.disk, dir, 0, name), name);
    var fw := new Follower(mount, dir);
    ghost var k := 0;
    var block := fw.Follow(0);
    while block != 0
      invariant mount.Coherent() && fw.Valid() && fresh(fw) && fw.mount == mount && fw.inode == dir
      invariant k <= REACH && Searchable(mount.disk, dir, k, name)
      invariant block == BlockMap(mount.disk, dir, k)
      invariant block != 0 ==> fw.Position() == k + 1
      invariant goal == FirstMatch(LookedAt(mount.disk, dir, k, name), name)
      decreases REACH - k
    {
      found := SearchBlock(mount, block, dir, k, name);
      if found.Some? {
        return;
      }
      k := k + 1;
      block := fw.Follow(k);
    }
    return None;
  }

  // e2_search: the follower, the inode reads and the scan take turns with the one
  // buffer.
  method Search(mount: Mount, dir: nat, name: seq<Byte>) returns (inode: nat, kind: Option<Kind>)
    requires mount.Coherent()
    requires name != [] ==>
               var d := InodeOf(mount.disk, mount.geometry, dir);
               d.Some? ==> Searchable(mount.disk, d.value, 0, name)
    modifies mount
    ensures mount.Coherent()
    ensures name == [] ==> inode == dir && kind == None
    ensures name != [] ==>
              var m := Match(mount.disk, mount.geometry, dir, name);
              if m.Some? then inode == m.value.inode && kind == Some(KindOf(m.value.fileType))
              else inode == 0 && kind == None
  {
    if name == [] {
      return dir, None;
    }
    var got := mount.GetInode(dir);
    if got.None? {
      return 0, None;
    }
    var again := mount.GetInode(dir);
    var found := SearchBlocks(mount, again.value, name);
    if found.Some? {
      return found.value.inode, Some(KindOf(found.value.fileType));
    }
    return 0, None;
  }
}

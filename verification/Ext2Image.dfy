// An ext2 image as it is written, byte by byte, and what the read path makes of it.
module Ext2Image {
  import opened Ext2

  // ----- numbers ----------------------------------------------------------------------

  // k bytes, the least significant one first.
  function Lsb(n: nat, k: nat): (s: seq<Byte>)
    ensures |s| == k
  {
    if k == 0 then [] else [n % 256] + Lsb(n / 256, k - 1)
  }

  function NumberBytes(ns: seq<nat>): (s: seq<Byte>)
    ensures |s| == 4 * |ns|
  {
    if ns == [] then [] else Lsb(ns[0], 4) + NumberBytes(ns[1..])
  }

  predicate Shown(b: seq<Byte>, at: nat, text: seq<Byte>) {
    at + |text| <= |b| && b[at..at + |text|] == text
  }

  lemma Peel(b: seq<Byte>, at: nat, x: seq<Byte>, y: seq<Byte>)
    ensures Shown(b, at, x + y) <==> Shown(b, at, x) && Shown(b, at + |x|, y)
  {
    if at + |x| + |y| <= |b| {
      var s := b[at..at + |x| + |y|];
      assert s[..|x|] == b[at..at + |x|] && s[|x|..] == b[at + |x|..at + |x| + |y|];
      assert (x + y)[..|x|] == x && (x + y)[|x|..] == y;
    }
  }

  lemma ShownAt(b: seq<Byte>, at: nat, text: seq<Byte>, k: nat)
    requires Shown(b, at, text) && k < |text|
    ensures b[at + k] == text[k]
  {
    assert b[at..at + |text|][k] == b[at + k];
  }

  lemma Lsb2(n: nat)
    ensures Lsb(n, 2) == [n % 256, n / 256 % 256]
  {
    assert Lsb(n / 256, 1) == [n / 256 % 256] + Lsb(n / 256 / 256, 0);
  }

  lemma Lsb4(n: nat)
    ensures Lsb(n, 4) == Lsb(n, 2) + Lsb(n / 0x1_0000, 2)
  {
    assert Lsb(n, 4) == [n % 256] + ([n / 256 % 256] + Lsb(n / 256 / 256, 2));
    Lsb2(n);
    assert n / 256 / 256 == n / 0x1_0000;
  }

  lemma Read16(b: seq<Byte>, at: nat, n: nat)
    requires Shown(b, at, Lsb(n, 2)) && n < 0x1_0000
    ensures at + 2 <= |b| && Le16(b, at) == n
  {
    Lsb2(n);
    ShownAt(b, at, Lsb(n, 2), 0);
    ShownAt(b, at, Lsb(n, 2), 1);
  }

  lemma HalfBytes(n: nat)
    ensures n % 0x1_0000 % 256 == n % 256
    ensures n % 0x1_0000 / 256 % 256 == n / 256 % 256
  {
    var q, r := n / 0x1_0000, n % 0x1_0000;
    assert n == 256 * (256 * q + r / 256) + r % 256;
    assert n / 256 == 256 * q + r / 256;
  }

  lemma LowHalf(n: nat)
    ensures Lsb(n % 0x1_0000, 2) == Lsb(n, 2)
  {
    Lsb2(n);
    Lsb2(n % 0x1_0000);
    HalfBytes(n);
  }

  lemma Read32(b: seq<Byte>, at: nat, n: nat)
    requires Shown(b, at, Lsb(n, 4)) && n < 0x1_0000_0000
    ensures at + 4 <= |b| && Le32(b, at) == n
  {
    Lsb4(n);
    LowHalf(n);
    Peel(b, at, Lsb(n, 2), Lsb(n / 0x1_0000, 2));
    Read16(b, at, n % 0x1_0000);
    Read16(b, at + 2, n / 0x1_0000);
  }

  // A number, and what is behind it.
  lemma Next16(b: seq<Byte>, at: nat, n: nat, rest: seq<Byte>)
    requires Shown(b, at, Lsb(n, 2) + rest) && n < 0x1_0000
    ensures at + 2 <= |b| && Le16(b, at) == n && Shown(b, at + 2, rest)
  {
    Peel(b, at, Lsb(n, 2), rest);
    Read16(b, at, n);
  }

  lemma Next32(b: seq<Byte>, at: nat, n: nat, rest: seq<Byte>)
    requires Shown(b, at, Lsb(n, 4) + rest) && n < 0x1_0000_0000
    ensures at + 4 <= |b| && Le32(b, at) == n && Shown(b, at + 4, rest)
  {
    Peel(b, at, Lsb(n, 4), rest);
    Read32(b, at, n);
  }

  predicate Long(n: nat) { n < 0x1_0000_0000 }

  lemma {:induction false} NumberAt(b: seq<Byte>, at: nat, ns: seq<nat>, k: nat)
    requires Shown(b, at, NumberBytes(ns)) && k < |ns| && forall i | 0 <= i < |ns| :: Long(ns[i])
    ensures at + 4 * k + 4 <= |b| && Le32(b, at + 4 * k) == ns[k]
    decreases k
  {
    assert Long(ns[0]);
    Next32(b, at, ns[0], NumberBytes(ns[1..]));
    if k > 0 {
      assert forall i | 0 <= i < |ns[1..]| :: ns[1..][i] == ns[i + 1];
      NumberAt(b, at + 4, ns[1..], k - 1);
    }
  }

  // ----- inodes -----------------------------------------------------------------------

  predicate Short(n: nat) { n < 0x1_0000 }

  predicate Writable(i: Inode) {
    && Short(i.mode) && Short(i.uid) && Long(i.size) && Long(i.atime) && Long(i.ctime) && Long(i.mtime)
    && Long(i.dtime) && Short(i.gid) && Short(i.linksCount) && Long(i.blocks) && Long(i.flags) && Long(i.osdl)
    && (forall k | 0 <= k < 15 :: Long(i.block[k]))
    && Long(i.generation) && Long(i.fileAcl) && Long(i.dirAcl) && Long(i.faddr)
  }

  // The end of an inode, its middle, its beginning.
  function InodeTail(i: Inode, rest: seq<Byte>): seq<Byte> {
    Lsb(i.generation, 4) + (Lsb(i.fileAcl, 4) + (Lsb(i.dirAcl, 4) + (Lsb(i.faddr, 4) + rest)))
  }

  function InodeMiddle(i: Inode, rest: seq<Byte>): seq<Byte> {
    Lsb(i.gid, 2) + (Lsb(i.linksCount, 2) + (Lsb(i.blocks, 4) + (Lsb(i.flags, 4) + (Lsb(i.osdl, 4) + rest))))
  }

  function InodeHead(i: Inode, rest: seq<Byte>): seq<Byte> {
    Lsb(i.mode, 2) + (Lsb(i.uid, 2) + (Lsb(i.size, 4)
    + (Lsb(i.atime, 4) + (Lsb(i.ctime, 4) + (Lsb(i.mtime, 4) + (Lsb(i.dtime, 4) + rest))))))
  }

  // The 128 bytes of an inode, the last twelve of them of no concern here.
  function InodeBytes(i: Inode, rest: seq<Byte>): (s: seq<Byte>)
    requires |rest| == 12
    ensures |s| == 128
  {
    InodeHead(i, InodeMiddle(i, NumberBytes(i.block) + InodeTail(i, rest)))
  }

  lemma HeadRead(b: seq<Byte>, at: nat, i: Inode, rest: seq<Byte>)
    requires Shown(b, at, InodeHead(i, rest)) && Writable(i)
    ensures at + 24 <= |b| && Shown(b, at + 24, rest)
    ensures Le16(b, at) == i.mode && Le16(b, at + 2) == i.uid && Le32(b, at + 4) == i.size
    ensures Le32(b, at + 8) == i.atime && Le32(b, at + 12) == i.ctime
    ensures Le32(b, at + 16) == i.mtime && Le32(b, at + 20) == i.dtime
  {
    var r6 := Lsb(i.dtime, 4) + rest;
    var r5 := Lsb(i.mtime, 4) + r6;
    var r4 := Lsb(i.ctime, 4) + r5;
    var r3 := Lsb(i.atime, 4) + r4;
    var r2 := Lsb(i.size, 4) + r3;
    Next16(b, at, i.mode, Lsb(i.uid, 2) + r2);
    Next16(b, at + 2, i.uid, r2);
    Next32(b, at + 4, i.size, r3);
    Next32(b, at + 8, i.atime, r4);
    Next32(b, at + 12, i.ctime, r5);
    Next32(b, at + 16, i.mtime, r6);
    Next32(b, at + 20, i.dtime, rest);
  }

  lemma MiddleRead(b: seq<Byte>, at: nat, i: Inode, rest: seq<Byte>)
    requires Shown(b, at, InodeMiddle(i, rest)) && Writable(i)
    ensures at + 16 <= |b| && Shown(b, at + 16, rest)
    ensures Le16(b, at) == i.gid && Le16(b, at + 2) == i.linksCount && Le32(b, at + 4) == i.blocks
    ensures Le32(b, at + 8) == i.flags && Le32(b, at + 12) == i.osdl
  {
    var r3 := Lsb(i.osdl, 4) + rest;
    var r2 := Lsb(i.flags, 4) + r3;
    var r1 := Lsb(i.blocks, 4) + r2;
    Next16(b, at, i.gid, Lsb(i.linksCount, 2) + r1);
    Next16(b, at + 2, i.linksCount, r1);
    Next32(b, at + 4, i.blocks, r2);
    Next32(b, at + 8, i.flags, r3);
    Next32(b, at + 12, i.osdl, rest);
  }

  lemma TailRead(b: seq<Byte>, at: nat, i: Inode, rest: seq<Byte>)
    requires Shown(b, at, InodeTail(i, rest)) && Writable(i)
    ensures at + 16 <= |b|
    ensures Le32(b, at) == i.generation && Le32(b, at + 4) == i.fileAcl
    ensures Le32(b, at + 8) == i.dirAcl && Le32(b, at + 12) == i.faddr
  {
    var r3 := Lsb(i.faddr, 4) + rest;
    var r2 := Lsb(i.dirAcl, 4) + r3;
    Next32(b, at, i.generation, Lsb(i.fileAcl, 4) + r2);
    Next32(b, at + 4, i.fileAcl, r2);
    Next32(b, at + 8, i.dirAcl, r3);
    Next32(b, at + 12, i.faddr, rest);
  }

  lemma BlocksRead(b: Block, at: nat, i: Inode)
    requires Shown(b, at, NumberBytes(i.block)) && Writable(i)
    ensures at + 60 <= BLOCK_SIZE && BlockNumbersAt(b, at) == i.block
  {
    forall k | 0 <= k < 15 ensures BlockNumbersAt(b, at)[k] == i.block[k] {
      NumberAt(b, at, i.block, k);
    }
  }

  // An inode's bytes are read back as that inode.
  lemma InodeRead(b: Block, at: nat, i: Inode, rest: seq<Byte>)
    requires |rest| == 12 && Shown(b, at, InodeBytes(i, rest)) && Writable(i)
    ensures at + 128 <= BLOCK_SIZE && InodeAt(b, at) == i
  {
    HeadRead(b, at, i, InodeMiddle(i, NumberBytes(i.block) + InodeTail(i, rest)));
    MiddleRead(b, at + 24, i, NumberBytes(i.block) + InodeTail(i, rest));
    Peel(b, at + 40, NumberBytes(i.block), InodeTail(i, rest));
    BlocksRead(b, at + 40, i);
    TailRead(b, at + 100, i, rest);
  }

  // ----- the device as one stretch of bytes -------------------------------------------

  function ByteAt(disk: Device, address: nat): Option<Byte> {
    var b := disk(address / 2048);
    if b.None? then None else Some(b.value[address % 2048])
  }

  ghost predicate OnDisk(disk: Device, address: nat, text: seq<Byte>) {
    forall k | 0 <= k < |text| :: ByteAt(disk, address + k) == Some(text[k])
  }

  lemma InBlock(disk: Device, block: nat, at: nat, text: seq<Byte>)
    requires OnDisk(disk, 2048 * block + at, text) && text != [] && at + |text| <= 2048
    ensures disk(block).Some? && Shown(disk(block).value, at, text)
  {
    forall k | 0 <= k < |text|
      ensures disk(block).Some? && disk(block).value[at + k] == text[k]
    {
      assert ByteAt(disk, 2048 * block + at + k) == Some(text[k]);
      assert (2048 * block + at + k) / 2048 == block && (2048 * block + at + k) % 2048 == at + k;
    }
    assert ByteAt(disk, 2048 * block + at + 0) == Some(text[0]);
  }

  // Where inode n stands: the table of its group begins at a block boundary, and
  // holds the inodes one behind the other.
  function InodeAddress(g: Geometry, n: nat): nat
    requires g.inodesPerGroup > 0 && n > 0 && (n - 1) / g.inodesPerGroup < |g.tables|
  {
    var group := (n - 1) / g.inodesPerGroup;
    2048 * (g.tables[group] + group * g.blocksPerGroup) + (n - 1) % g.inodesPerGroup * g.inodeSize
  }

  lemma InodeFound(disk: Device, g: Geometry, n: nat, i: Inode, rest: seq<Byte>)
    requires g.Ok() && n > 0 && (n - 1) / g.inodesPerGroup < |g.tables| && |rest| == 12 && Writable(i)
    requires OnDisk(disk, InodeAddress(g, n), InodeBytes(i, rest))
    ensures InodeOf(disk, g, n) == Some(i)
  {
    var d := g.Distance(n);
    InodeFits(g, n);
    assert InodeAddress(g, n) == 2048 * g.BlockOf(n) + d % 2048;
    InBlock(disk, g.BlockOf(n), d % 2048, InodeBytes(i, rest));
    InodeRead(disk(g.BlockOf(n)).value, d % 2048, i, rest);
  }

  // ----- the blocks of a file ---------------------------------------------------------

  function TableBytes(ns: seq<nat>): seq<Byte> {
    NumberBytes(ns) + if |ns| < 512 then Lsb(0, 4) else []
  }

  // The file has these blocks: the first twelve in the inode, the others in the
  // block whose number comes after them, and a zero behind the last one.
  ghost predicate Listed(disk: Device, i: Inode, numbers: seq<nat>) {
    && |numbers| <= 524 && (forall k | 0 <= k < |numbers| :: 0 < numbers[k] && Long(numbers[k]))
    && (forall k | 0 <= k < |numbers| && k < 12 :: i.block[k] == numbers[k])
    && (|numbers| <= 12 ==> i.block[|numbers|] == 0)
    && (|numbers| > 12 ==>
          disk(i.block[12]).Some? && Shown(disk(i.block[12]).value, 0, TableBytes(numbers[12..])))
  }

  lemma TableEnd(b: Block, ns: seq<nat>)
    requires |ns| < 512 && Shown(b, 0, TableBytes(ns))
    ensures Le32(b, 4 * |ns|) == 0
  {
    Peel(b, 0, NumberBytes(ns), Lsb(0, 4));
    Read32(b, 4 * |ns|, 0);
  }

  lemma TableHead(b: Block, ns: seq<nat>)
    requires Shown(b, 0, TableBytes(ns))
    ensures Shown(b, 0, NumberBytes(ns))
  {
    Peel(b, 0, NumberBytes(ns), if |ns| < 512 then Lsb(0, 4) else []);
  }

  lemma TableRead(b: Block, ns: seq<nat>, k: nat)
    requires Shown(b, 0, TableBytes(ns)) && k <= |ns| && k < 512 && forall j | 0 <= j < |ns| :: Long(ns[j])
    ensures Le32(b, 4 * k) == if k < |ns| then ns[k] else 0
  {
    if k < |ns| {
      TableHead(b, ns);
      NumberAt(b, 0, ns, k);
    } else {
      TableEnd(b, ns);
    }
  }

  // Block 0 begins with a zero, or cannot be read.
  ghost predicate ZeroFirst(disk: Device) { disk(0).None? || Le32(disk(0).value, 0) == 0 }

  lemma MapRead(disk: Device, i: Inode, numbers: seq<nat>, k: nat)
    requires Listed(disk, i, numbers) && k <= |numbers|
    ensures k < |numbers| ==> BlockMap(disk, i, k) == numbers[k]
    ensures k == |numbers| && k != 12 ==> BlockMap(disk, i, k) == 0
    ensures k == |numbers| == 12 ==> (BlockMap(disk, i, k) == 0 <==> ZeroFirst(disk))
  {
    if 12 <= k < 524 && |numbers| > 12 {
      assert forall j | 0 <= j < |numbers[12..]| :: numbers[12..][j] == numbers[j + 12];
      TableRead(disk(i.block[12]).value, numbers[12..], k - 12);
    }
  }

  // Following a file gives its blocks and then zero, except where it has twelve
  // blocks to the last one: then block 0 is taken for the indirect block, and the
  // zero comes only if block 0 begins with one.
  method FollowFile(mount: Mount, i: Inode, numbers: seq<nat>) returns (blocks: seq<nat>)
    requires mount.Coherent() && Listed(mount.disk, i, numbers)
    modifies mount
    ensures mount.Coherent() && |blocks| == |numbers| + 1 && blocks[..|numbers|] == numbers
    ensures blocks[|numbers|] == 0 <==> |numbers| != 12 || ZeroFirst(mount.disk)
  {
    var fw := new Follower(mount, i);
    blocks := fw.Collect(|numbers| + 1);
    forall k | 0 <= k <= |numbers|
      ensures k < |numbers| ==> blocks[k] == numbers[k]
      ensures k == |numbers| ==> (blocks[k] == 0 <==> |numbers| != 12 || ZeroFirst(mount.disk))
    {
      MapRead(mount.disk, i, numbers, k);
    }
  }

  // ----- directories ------------------------------------------------------------------

  // An entry, and the bytes left over behind its name.
  datatype Record = Record(inode: nat, fileType: Byte, name: seq<Byte>, slack: seq<Byte>) {
    function Length(): nat { 8 + |name| + |slack| }

    predicate Fits() { Long(inode) && |name| < 256 && Short(Length()) }
  }

  function RecordBytes(r: Record): (s: seq<Byte>)
    requires r.Fits()
    ensures |s| == r.Length()
  {
    Lsb(r.inode, 4) + (Lsb(r.Length(), 2) + ([|r.name|, r.fileType] + (r.name + r.slack)))
  }

  predicate AllFit(rs: seq<Record>) { forall k | 0 <= k < |rs| :: rs[k].Fits() }

  function DirectoryBytes(rs: seq<Record>): seq<Byte>
    requires AllFit(rs)
  {
    if rs == [] then [] else RecordBytes(rs[0]) + DirectoryBytes(rs[1..])
  }

  function EntryOf(r: Record): Entry { Entry(r.inode, r.fileType, r.name) }

  function EntriesOf(rs: seq<Record>): seq<Entry> {
    if rs == [] then [] else [EntryOf(rs[0])] + EntriesOf(rs[1..])
  }

  // One record, read.
  lemma RecordRead(b: Block, at: nat, r: Record)
    requires r.Fits() && Shown(b, at, RecordBytes(r))
    ensures at + r.Length() <= BLOCK_SIZE && b[at + 6] as int == |r.name|
    ensures RecLen(b, at) == r.Length() && EntryAt(b, at) == EntryOf(r)
  {
    var text := r.name + r.slack;
    var head := [|r.name|, r.fileType] + text;
    Next32(b, at, r.inode, Lsb(r.Length(), 2) + head);
    Next16(b, at + 4, r.Length(), head);
    ShownAt(b, at + 6, head, 0);
    ShownAt(b, at + 6, head, 1);
    Peel(b, at + 6, [|r.name|, r.fileType], text);
    Peel(b, at + 8, r.name, r.slack);
  }

  // A block filled with records is read as their entries.
  lemma {:induction false} BlockRead(b: Block, at: nat, rs: seq<Record>)
    requires AllFit(rs) && Shown(b, at, DirectoryBytes(rs)) && at + |DirectoryBytes(rs)| == BLOCK_SIZE
    ensures Records(b, at) && Entries(b, at) == EntriesOf(rs)
    decreases rs
  {
    if rs != [] {
      Peel(b, at, RecordBytes(rs[0]), DirectoryBytes(rs[1..]));
      RecordRead(b, at, rs[0]);
      BlockRead(b, at + rs[0].Length(), rs[1..]);
    }
  }

  ghost predicate FilledBlock(b: Option<Block>, rs: seq<Record>) {
    AllFit(rs) && b.Some? && b.value == DirectoryBytes(rs)
  }

  // The k-th block of the directory holds the k-th list of records.
  ghost predicate Filled(disk: Device, numbers: seq<nat>, files: seq<seq<Record>>) {
    |files| == |numbers| && forall k | 0 <= k < |files| :: FilledBlock(disk(numbers[k]), files[k])
  }

  function Joined(files: seq<seq<Record>>): seq<Entry> {
    if files == [] then [] else EntriesOf(files[0]) + Joined(files[1..])
  }

  lemma {:induction false} DirectoryRead(disk: Device, i: Inode, numbers: seq<nat>, files: seq<seq<Record>>, k: nat)
    requires Listed(disk, i, numbers) && Filled(disk, numbers, files) && k <= |numbers|
    requires |numbers| != 12 || ZeroFirst(disk)
    ensures WellFormed(disk, i, k) && AllEntries(disk, i, k) == Joined(files[k..])
    decreases |numbers| - k
  {
    MapRead(disk, i, numbers, k);
    if k < |numbers| {
      assert FilledBlock(disk(numbers[k]), files[k]);
      var b := disk(numbers[k]).value;
      assert b[0..0 + |DirectoryBytes(files[k])|] == b;
      BlockRead(b, 0, files[k]);
      DirectoryRead(disk, i, numbers, files, k + 1);
      assert files[k..][1..] == files[k + 1..];
    } else {
      assert files[k..] == [];
    }
  }

  // ----- the search on such an image --------------------------------------------------

  // Inode n of the image is a directory of these blocks, filled with these records.
  ghost predicate Image(mount: Mount, n: nat, i: Inode, rest: seq<Byte>, numbers: seq<nat>, files: seq<seq<Record>>)
    requires mount.geometry.Ok()
  {
    var g := mount.geometry;
    && n > 0 && (n - 1) / g.inodesPerGroup < |g.tables|
    && |rest| == 12 && Writable(i) && OnDisk(mount.disk, InodeAddress(g, n), InodeBytes(i, rest))
    && Listed(mount.disk, i, numbers) && (|numbers| != 12 || ZeroFirst(mount.disk))
    && Filled(mount.disk, numbers, files)
  }

  ghost predicate FirstOf(es: seq<Entry>, name: seq<Byte>, k: nat) {
    k < |es| && es[k].name == name && forall j | 0 <= j < k :: es[j].name != name
  }

  lemma {:induction false} FirstIs(es: seq<Entry>, name: seq<Byte>, k: nat)
    requires FirstOf(es, name, k)
    ensures FirstMatch(es, name) == Some(es[k])
    decreases k
  {
    if k > 0 {
      assert es[0].name != name;
      assert forall j | 0 <= j < |es| - 1 :: es[1..][j] == es[j + 1];
      FirstIs(es[1..], name, k - 1);
    }
  }

  lemma ImageMatch(mount: Mount, n: nat, i: Inode, rest: seq<Byte>, numbers: seq<nat>, files: seq<seq<Record>>,
                   name: seq<Byte>)
    requires mount.geometry.Ok() && Image(mount, n, i, rest, numbers, files)
    ensures InodeOf(mount.disk, mount.geometry, n) == Some(i) && Searchable(mount.disk, i, 0, name)
    ensures Match(mount.disk, mount.geometry, n, name) == FirstMatch(Joined(files), name)
  {
    InodeFound(mount.disk, mount.geometry, n, i, rest);
    DirectoryRead(mount.disk, i, numbers, files, 0);
    assert files[0..] == files;
    WholeDirectory(mount.disk, i, 0, name);
  }

  predicate AnswersEntry(e: Entry, inode: nat, kind: Option<Kind>) {
    && inode == e.inode
    && kind == Some(if e.fileType == 2 then Directory else if e.fileType == 1 then Regular else Unknown)
  }

  predicate Lacks(es: seq<Entry>, name: seq<Byte>) { forall k | 0 <= k < |es| :: es[k].name != name }

  // The first entry of that name, or none.
  lemma {:induction false} LacksNone(es: seq<Entry>, name: seq<Byte>)
    requires Lacks(es, name)
    ensures FirstMatch(es, name) == None
  {
    if es != [] {
      assert forall j | 0 <= j < |es| - 1 :: es[1..][j] == es[j + 1];
      LacksNone(es[1..], name);
    }
  }

  // e2_search in a directory written down like that answers number and kind of the
  // first entry of that name, and 0 when there is none.
  method SearchImage(mount: Mount, n: nat, ghost i: Inode, ghost rest: seq<Byte>, ghost numbers: seq<nat>,
                     ghost files: seq<seq<Record>>, name: seq<Byte>)
    returns (inode: nat, kind: Option<Kind>)
    requires mount.Coherent() && Image(mount, n, i, rest, numbers, files) && name != []
    modifies mount
    ensures mount.Coherent()
    ensures forall k: nat | FirstOf(Joined(files), name, k) :: AnswersEntry(Joined(files)[k], inode, kind)
    ensures Lacks(Joined(files), name) ==> inode == 0 && kind == None
  {
    ghost var es := Joined(files);
    ImageMatch(mount, n, i, rest, numbers, files, name);
    inode, kind := Search(mount, n, name);
    forall k: nat | FirstOf(es, name, k) ensures AnswersEntry(es[k], inode, kind) {
      FirstIs(es, name, k);
    }
    if Lacks(es, name) {
      LacksNone(es, name);
    }
  }

  // ext2_get_inode finds an inode written down like that.
  method ReadInode(mount: Mount, n: nat, ghost i: Inode, ghost rest: seq<Byte>) returns (found: Option<Inode>)
    requires mount.Coherent()
    requires var g := mount.geometry;
             && n > 0 && (n - 1) / g.inodesPerGroup < |g.tables| && |rest| == 12 && Writable(i)
             && OnDisk(mount.disk, InodeAddress(g, n), InodeBytes(i, rest))
    modifies mount
    ensures mount.Coherent() && found == Some(i)
  {
    InodeFound(mount.disk, mount.geometry, n, i, rest);
    found := mount.GetInode(n);
  }
}

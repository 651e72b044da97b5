// The allocator of src/micromon/heap.c seen as two sequences of blocks: what
// each operation does to the free list and to the allocated list, without the
// in-place headers. Heap.dfy shows that the pointer code does exactly this.
module HeapBlocks {
  // sizeof(list_item_t): five 32-bit words.
  const HEADER: nat := 20
  const SMALLEST_PAYLOAD: nat := 32

  ghost predicate Within(lo: int, x: int, hi: int) { lo <= x < hi }

  ghost function Range(lo: int, hi: int): set<int> {
    set x: int | lo <= x < hi && Within(lo, x, hi)
  }

  // A header at `start` followed by `size` bytes of payload.
  datatype Block = Block(start: nat, size: nat, owner: nat) {
    function Len(): nat { HEADER + size }
    function End(): nat { start + Len() }
    ghost function Extent(): set<int> { Range(start, End()) }
  }

  // The bytes covered by a list of blocks.
  ghost function Cover(bs: seq<Block>): set<int> {
    if bs == [] then {} else bs[0].Extent() + Cover(bs[1..])
  }

  ghost function Total(bs: seq<Block>): nat {
    if bs == [] then 0 else bs[0].Len() + Total(bs[1..])
  }

  ghost predicate Ordered(bs: seq<Block>) {
    forall i, j | 0 <= i < j < |bs| :: bs[i].End() <= bs[j].start
  }

  ghost predicate Apart(a: Block, b: Block) {
    a.End() <= b.start || b.End() <= a.start
  }

  ghost predicate Separated(bs: seq<Block>) {
    forall i, j | 0 <= i < j < |bs| :: Apart(bs[i], bs[j])
  }

  ghost predicate AllApart(bs: seq<Block>, a: Block) {
    forall i | 0 <= i < |bs| :: Apart(bs[i], a)
  }

  // No two blocks overlap, and the free list is in strict address order.
  ghost predicate Disjoint(free: seq<Block>, alloc: seq<Block>) {
    && Ordered(free)
    && Separated(alloc)
    && (forall j | 0 <= j < |alloc| :: AllApart(free, alloc[j]))
  }

  // The blocks cover [lo, hi) and nothing else, and their lengths add up to it.
  ghost predicate Fills(lo: int, hi: int, free: seq<Block>, alloc: seq<Block>) {
    && Cover(free) + Cover(alloc) == Range(lo, hi)
    && Total(free) + Total(alloc) == hi - lo
  }

  // Free and allocated blocks, headers included, cut [lo, hi) into pieces.
  ghost predicate Partition(lo: int, hi: int, free: seq<Block>, alloc: seq<Block>) {
    Disjoint(free, alloc) && Fills(lo, hi, free, alloc)
  }

  function Without<T>(s: seq<T>, k: nat): seq<T>
    requires k < |s|
  {
    s[..k] + s[k + 1..]
  }

  // ----- what free_item does to the free list ---------------------------------

  ghost function Touches(a: Block, b: Block): bool { a.End() == b.start }

  // `a` grown over its right-hand neighbour `b`, whose header becomes payload.
  ghost function Join(a: Block, b: Block): Block {
    Block(a.start, a.size + b.Len(), a.owner)
  }

  // How many leading blocks start below address `a`.
  ghost function Below(bs: seq<Block>, a: nat): (k: nat)
    ensures k <= |bs|
    ensures forall i | 0 <= i < k :: bs[i].start < a
    ensures k < |bs| ==> a <= bs[k].start
  {
    if bs == [] || a <= bs[0].start then 0 else 1 + Below(bs[1..], a)
  }

  // Where a returned block goes: `block` takes the place of bs[from..upto].
  datatype Slot = Slot(from: nat, upto: nat, block: Block)

  // The slot free_item gives to `b`: joined to its neighbours where free_item
  // joins them. A block beyond the last free block is appended and never
  // joined, even when it touches it.
  ghost function SlotFor(bs: seq<Block>, b: Block): (r: Slot)
    ensures r.from <= r.upto <= |bs|
  {
    var k := Below(bs, b.start);
    if 0 < k < |bs| && Touches(bs[k - 1], b) then
      var c := Join(bs[k - 1], b);
      if Touches(c, bs[k]) then Slot(k - 1, k + 1, Join(c, bs[k])) else Slot(k - 1, k, c)
    else if k < |bs| && Touches(b, bs[k]) then
      Slot(k, k + 1, Join(b, bs[k]))
    else
      Slot(k, k, b)
  }

  ghost function Put(bs: seq<Block>, r: Slot): seq<Block>
    requires r.from <= r.upto <= |bs|
  {
    bs[..r.from] + [r.block] + bs[r.upto..]
  }

  // Where a block of the new list comes from.
  lemma PutAt(bs: seq<Block>, r: Slot, i: nat)
    requires r.from <= r.upto <= |bs| && i < |Put(bs, r)|
    ensures |Put(bs, r)| == |bs| + 1 - (r.upto - r.from)
    ensures Put(bs, r)[i] ==
            if i < r.from then bs[i] else if i == r.from then r.block else bs[i + r.upto - r.from - 1]
  {
  }

  lemma WithoutAt(bs: seq<Block>, k: nat, i: nat)
    requires k < |bs| && i < |Without(bs, k)|
    ensures |Without(bs, k)| == |bs| - 1
    ensures Without(bs, k)[i] == bs[if i < k then i else i + 1]
  {
  }

  // The free list after `b` has been handed back.
  ghost function Release(bs: seq<Block>, b: Block): seq<Block> {
    Put(bs, SlotFor(bs, b))
  }

  // ----- what bios_malloc does to the free list -------------------------------

  // The lowest-addressed block that is big enough, |bs| if there is none.
  ghost function FirstFit(bs: seq<Block>, n: nat): (k: nat)
    ensures k <= |bs|
    ensures forall i | 0 <= i < k :: bs[i].size < n
    ensures k < |bs| ==> n <= bs[k].size
  {
    if bs == [] || n <= bs[0].size then 0 else 1 + FirstFit(bs[1..], n)
  }

  ghost predicate Splits(b: Block, n: nat) {
    b.size >= n + HEADER + SMALLEST_PAYLOAD
  }

  ghost function Surplus(b: Block, n: nat): Block
    requires Splits(b, n)
  {
    Block(b.start + n + HEADER, b.size - n - HEADER, 0)
  }

  // The block handed out when `b` serves a request for n bytes.
  ghost function Taken(b: Block, n: nat, pid: nat): Block {
    Block(b.start, if Splits(b, n) then n else b.size, pid)
  }

  ghost function TakeFrom(bs: seq<Block>, k: nat, n: nat): seq<Block>
    requires k < |bs|
  {
    if Splits(bs[k], n) then bs[k := Surplus(bs[k], n)] else Without(bs, k)
  }

  // ----- back links ----------------------------------------------------------

  const NULL: nat := 0

  // The address of the i-th block, NULL before the first and after the last.
  ghost function StartAt(bs: seq<Block>, i: int): nat {
    if 0 <= i < |bs| then bs[i].start else NULL
  }

  // The back links of the free blocks, in list order. Right ones lead to the
  // block before; the code as it is can leave others.
  ghost predicate Right(bs: seq<Block>, prevs: seq<nat>, i: nat)
    requires i < |bs| == |prevs|
  {
    prevs[i] == StartAt(bs, i - 1)
  }

  ghost predicate AllRight(bs: seq<Block>, prevs: seq<nat>)
    requires |bs| == |prevs|
  {
    forall i | 0 <= i < |bs| :: Right(bs, prevs, i)
  }

  // The back links once r.block has taken its place: `here` is its own and
  // `behind` that of the block that follows.
  ghost function Reprev(bs: seq<Block>, r: Slot, prevs: seq<nat>, here: nat, behind: nat): (ps: seq<nat>)
    requires r.from <= r.upto <= |bs| == |prevs|
    ensures |ps| == |Put(bs, r)|
  {
    prevs[..r.from] + [here] + (if r.upto < |bs| then [behind] + prevs[r.upto + 1..] else [])
  }

  lemma ReprevAt(bs: seq<Block>, r: Slot, prevs: seq<nat>, here: nat, behind: nat, i: nat)
    requires r.from <= r.upto <= |bs| == |prevs| && i < |Put(bs, r)|
    ensures Reprev(bs, r, prevs, here, behind)[i] ==
            if i < r.from then prevs[i] else if i == r.from then here
            else if i == r.from + 1 then behind else prevs[i + r.upto - r.from - 1]
  {
  }

  // A free block grows over what is handed back behind it.
  ghost predicate Grows(bs: seq<Block>, r: Slot)
    requires r.from <= r.upto <= |bs|
  {
    r.from < r.upto && r.block.start == bs[r.from].start
  }

  // free_item writes no link when a block merely grows over the item, and not
  // the block's own when it grows over the next one too.
  ghost function ReleaseHere(bs: seq<Block>, r: Slot, prevs: seq<nat>): nat
    requires r.from <= r.upto <= |bs| == |prevs|
  {
    if Grows(bs, r) then prevs[r.from] else StartAt(bs, r.from - 1)
  }

  ghost function ReleaseBehind(bs: seq<Block>, r: Slot, prevs: seq<nat>): nat
    requires r.from <= r.upto <= |bs| == |prevs|
  {
    if Grows(bs, r) && r.upto == r.from + 1 && r.upto < |bs| then prevs[r.upto] else r.block.start
  }

  ghost function ReleasePrevs(bs: seq<Block>, b: Block, prevs: seq<nat>): (ps: seq<nat>)
    requires |bs| == |prevs|
    ensures |ps| == |Release(bs, b)|
  {
    var r := SlotFor(bs, b);
    Reprev(bs, r, prevs, ReleaseHere(bs, r, prevs), ReleaseBehind(bs, r, prevs))
  }

  // And once the k-th block, its own link right, has been taken out.
  ghost function Unprev(bs: seq<Block>, k: nat, prevs: seq<nat>): (ps: seq<nat>)
    requires k < |bs| == |prevs|
    ensures |ps| == |Without(bs, k)|
  {
    prevs[..k] + (if k + 1 < |bs| then [StartAt(bs, k - 1)] + prevs[k + 2..] else [])
  }

  // bios_malloc leaves the back link of the block behind a split alone, unless
  // that is repaired.
  ghost function SplitBehind(bs: seq<Block>, k: nat, n: nat, prevs: seq<nat>, repaired: bool): nat
    requires k < |bs| == |prevs| && Splits(bs[k], n)
  {
    if repaired || k + 1 == |bs| then Surplus(bs[k], n).start else prevs[k + 1]
  }

  ghost function TakePrevs(bs: seq<Block>, k: nat, n: nat, prevs: seq<nat>, repaired: bool): (ps: seq<nat>)
    requires k < |bs| == |prevs|
    ensures |ps| == |TakeFrom(bs, k, n)|
  {
    if Splits(bs[k], n) then
      Reprev(bs, Slot(k, k + 1, Surplus(bs[k], n)), prevs, StartAt(bs, k - 1), SplitBehind(bs, k, n, prevs, repaired))
    else Unprev(bs, k, prevs)
  }

  lemma SplitIsPut(bs: seq<Block>, k: nat, n: nat)
    requires k < |bs| && Splits(bs[k], n)
    ensures TakeFrom(bs, k, n) == Put(bs, Slot(k, k + 1, Surplus(bs[k], n)))
  {
  }

  // ----- what clean_heap leaves allocated -------------------------------------

  ghost function NotOwned(bs: seq<Block>, pid: nat): seq<Block> {
    if bs == [] then []
    else (if bs[0].owner == pid then [] else [bs[0]]) + NotOwned(bs[1..], pid)
  }

  ghost function Owned(bs: seq<Block>, pid: nat): seq<Block> {
    if bs == [] then []
    else (if bs[0].owner == pid then [bs[0]] else []) + Owned(bs[1..], pid)
  }

  // ----- coverage and totals --------------------------------------------------

  lemma {:induction false} CoverConcat(a: seq<Block>, b: seq<Block>)
    ensures Cover(a + b) == Cover(a) + Cover(b)
    ensures Total(a + b) == Total(a) + Total(b)
  {
    if a == [] {
      assert a + b == b;
    } else {
      assert (a + b)[1..] == a[1..] + b;
      CoverConcat(a[1..], b);
    }
  }

  lemma Thirds(bs: seq<Block>, i: nat, j: nat)
    requires i <= j <= |bs|
    ensures (bs[..i] + bs[i..j]) + bs[j..] == bs
  {
    assert bs[..i] + bs[i..j] == bs[..j];
  }

  lemma CoverSplit(bs: seq<Block>, i: nat, j: nat)
    requires i <= j <= |bs|
    ensures Cover(bs) == Cover(bs[..i]) + Cover(bs[i..j]) + Cover(bs[j..])
    ensures Total(bs) == Total(bs[..i]) + Total(bs[i..j]) + Total(bs[j..])
  {
    Thirds(bs, i, j);
    CoverConcat(bs[..i] + bs[i..j], bs[j..]);
    CoverConcat(bs[..i], bs[i..j]);
  }

  lemma {:induction false} CoverMember(bs: seq<Block>, i: nat)
    requires i < |bs|
    ensures bs[i].Extent() <= Cover(bs)
    ensures bs[i].Len() <= Total(bs)
  {
    CoverSplit(bs, i, i + 1);
    assert bs[i..i + 1] == [bs[i]];
    assert Cover([bs[i]]) == bs[i].Extent() && Total([bs[i]]) == bs[i].Len();
  }

  ghost predicate Holds(b: Block, x: int) { b.start <= x < b.End() }

  lemma {:induction false} CoverWitness(bs: seq<Block>, x: int)
    ensures x in Cover(bs) <==> exists i :: 0 <= i < |bs| && Holds(bs[i], x)
  {
    if bs != [] {
      CoverWitness(bs[1..], x);
      if i :| 0 <= i < |bs[1..]| && Holds(bs[1..][i], x) {
        assert Holds(bs[i + 1], x);
      }
      if i :| 0 <= i < |bs| && Holds(bs[i], x) && i != 0 {
        assert Holds(bs[1..][i - 1], x);
      }
    }
  }

  lemma SingleCover(b: Block)
    ensures Cover([b]) == b.Extent() && Total([b]) == b.Len()
  {
  }

  // Putting in a block that covers what it replaces plus `b`.
  lemma PutCover(bs: seq<Block>, r: Slot, b: Block)
    requires r.from <= r.upto <= |bs|
    requires r.block.Extent() == Cover(bs[r.from..r.upto]) + b.Extent()
    requires r.block.Len() == Total(bs[r.from..r.upto]) + b.Len()
    ensures Cover(Put(bs, r)) == Cover(bs) + b.Extent()
    ensures Total(Put(bs, r)) == Total(bs) + b.Len()
  {
    CoverConcat(bs[..r.from] + [r.block], bs[r.upto..]);
    CoverConcat(bs[..r.from], [r.block]);
    SingleCover(r.block);
    CoverSplit(bs, r.from, r.upto);
  }

  lemma SliceCover(bs: seq<Block>, i: nat)
    requires i < |bs|
    ensures Cover(bs[i..i + 1]) == bs[i].Extent()
    ensures Total(bs[i..i + 1]) == bs[i].Len()
  {
    assert bs[i..i + 1] == [bs[i]];
  }

  lemma PairCover(bs: seq<Block>, i: nat)
    requires i + 1 < |bs|
    ensures Cover(bs[i..i + 2]) == bs[i].Extent() + bs[i + 1].Extent()
    ensures Total(bs[i..i + 2]) == bs[i].Len() + bs[i + 1].Len()
  {
    assert bs[i..i + 2] == [bs[i]] + [bs[i + 1]];
    CoverConcat([bs[i]], [bs[i + 1]]);
  }

  lemma JoinExtent(a: Block, b: Block)
    requires Touches(a, b)
    ensures Join(a, b).Extent() == a.Extent() + b.Extent()
    ensures Join(a, b).Len() == a.Len() + b.Len()
  {
  }

  lemma SlotCover(bs: seq<Block>, b: Block)
    ensures var r := SlotFor(bs, b);
            && r.block.Extent() == Cover(bs[r.from..r.upto]) + b.Extent()
            && r.block.Len() == Total(bs[r.from..r.upto]) + b.Len()
  {
    var k := Below(bs, b.start);
    if 0 < k < |bs| && Touches(bs[k - 1], b) {
      var c := Join(bs[k - 1], b);
      JoinExtent(bs[k - 1], b);
      if Touches(c, bs[k]) {
        JoinExtent(c, bs[k]);
        PairCover(bs, k - 1);
      } else {
        SliceCover(bs, k - 1);
      }
    } else if k < |bs| && Touches(b, bs[k]) {
      JoinExtent(b, bs[k]);
      SliceCover(bs, k);
    }
  }

  // Handing a block back grows the free cover by exactly that block's extent,
  // in whichever branch it is done.
  lemma ReleaseCover(bs: seq<Block>, b: Block)
    ensures Cover(Release(bs, b)) == Cover(bs) + b.Extent()
    ensures Total(Release(bs, b)) == Total(bs) + b.Len()
  {
    var r := SlotFor(bs, b);
    SlotCover(bs, b);
    PutCover(bs, r, b);
  }

  // ----- the partition is kept ------------------------------------------------

  lemma PutOrdered(bs: seq<Block>, r: Slot)
    requires Ordered(bs) && r.from <= r.upto <= |bs|
    requires r.from > 0 ==> bs[r.from - 1].End() <= r.block.start
    requires r.upto < |bs| ==> r.block.End() <= bs[r.upto].start
    ensures Ordered(Put(bs, r))
  {
    assert r.from > 0 ==> forall x | 0 <= x < r.from :: bs[x].End() <= bs[r.from - 1].End();
    assert r.upto < |bs| ==> forall x | r.upto <= x < |bs| :: bs[r.upto].start <= bs[x].start;
  }

  lemma ReleaseOrdered(bs: seq<Block>, b: Block)
    requires Ordered(bs) && AllApart(bs, b)
    ensures Ordered(Release(bs, b))
  {
    var k := Below(bs, b.start);
    assert k > 0 ==> Apart(bs[k - 1], b);
    assert k < |bs| ==> Apart(bs[k], b);
    PutOrdered(bs, SlotFor(bs, b));
  }

  lemma JoinApart(x: Block, y: Block, a: Block)
    requires Touches(x, y) && Apart(x, a) && Apart(y, a)
    ensures Apart(Join(x, y), a)
  {
  }

  // Whatever was apart from all the pieces is apart from the joined list.
  lemma ReleaseApart(bs: seq<Block>, b: Block, a: Block)
    requires AllApart(bs, a) && Apart(b, a)
    ensures AllApart(Release(bs, b), a)
  {
    var k := Below(bs, b.start);
    if k > 0 && k < |bs| && Touches(bs[k - 1], b) {
      JoinApart(bs[k - 1], b, a);
    }
  }

  lemma WithoutCover(bs: seq<Block>, k: nat)
    requires k < |bs|
    ensures Cover(bs) == Cover(Without(bs, k)) + bs[k].Extent()
    ensures Total(bs) == Total(Without(bs, k)) + bs[k].Len()
  {
    CoverSplit(bs, k, k + 1);
    SliceCover(bs, k);
    CoverConcat(bs[..k], bs[k + 1..]);
  }

  lemma ReleasePartition(lo: int, hi: int, free: seq<Block>, alloc: seq<Block>, k: nat)
    requires Partition(lo, hi, free, alloc)
    requires k < |alloc|
    ensures Partition(lo, hi, Release(free, alloc[k].(owner := 0)), Without(alloc, k))
  {
    var b := alloc[k].(owner := 0);
    var rest := Without(alloc, k);
    assert Fills(lo, hi, Release(free, b), rest) by {
      assert b.Extent() == alloc[k].Extent();
      ReleaseCover(free, b);
      WithoutCover(alloc, k);
    }
    assert Disjoint(Release(free, b), rest) by {
      assert AllApart(free, alloc[k]);
      assert AllApart(free, b);
      ReleaseOrdered(free, b);
      forall j | 0 <= j < |rest| ensures AllApart(Release(free, b), rest[j]) {
        var i := if j < k then j else j + 1;
        assert rest[j] == alloc[i] && AllApart(free, alloc[i]);
        ReleaseApart(free, b, rest[j]);
      }
    }
  }

  lemma SplitExtent(b: Block, n: nat, pid: nat)
    requires Splits(b, n)
    ensures b.Extent() == Taken(b, n, pid).Extent() + Surplus(b, n).Extent()
    ensures b.Len() == Taken(b, n, pid).Len() + Surplus(b, n).Len()
  {
  }

  lemma SplitCover(bs: seq<Block>, k: nat, n: nat, pid: nat)
    requires k < |bs| && Splits(bs[k], n)
    ensures var t := bs[k := Surplus(bs[k], n)];
            && Cover(bs) == Cover(t) + Taken(bs[k], n, pid).Extent()
            && Total(bs) == Total(t) + Taken(bs[k], n, pid).Len()
  {
    var t := bs[k := Surplus(bs[k], n)];
    SplitExtent(bs[k], n, pid);
    WithoutCover(bs, k);
    WithoutCover(t, k);
    assert Without(t, k) == Without(bs, k);
  }

  // Taking a block moves its bytes from the free cover to the caller.
  lemma TakeCover(bs: seq<Block>, k: nat, n: nat, pid: nat)
    requires k < |bs|
    ensures Cover(bs) == Cover(TakeFrom(bs, k, n)) + Taken(bs[k], n, pid).Extent()
    ensures Total(bs) == Total(TakeFrom(bs, k, n)) + Taken(bs[k], n, pid).Len()
  {
    WithoutCover(bs, k);
    if Splits(bs[k], n) {
      SplitCover(bs, k, n, pid);
    } else {
      assert Taken(bs[k], n, pid).Extent() == bs[k].Extent();
    }
  }

  lemma TakeApart(free: seq<Block>, k: nat, n: nat, pid: nat, a: Block)
    requires k < |free| && AllApart(free, a)
    ensures AllApart(TakeFrom(free, k, n), a) && Apart(Taken(free[k], n, pid), a)
  {
  }

  lemma TakeOrdered(free: seq<Block>, k: nat, n: nat, pid: nat)
    requires Ordered(free) && k < |free|
    ensures Ordered(TakeFrom(free, k, n))
    ensures AllApart(TakeFrom(free, k, n), Taken(free[k], n, pid))
  {
  }

  lemma TakeDisjoint(free: seq<Block>, alloc: seq<Block>, k: nat, n: nat, pid: nat)
    requires Disjoint(free, alloc)
    requires k < |free|
    ensures Disjoint(TakeFrom(free, k, n), [Taken(free[k], n, pid)] + alloc)
  {
    TakeOrdered(free, k, n, pid);
    forall j | 0 <= j < |alloc|
      ensures AllApart(TakeFrom(free, k, n), alloc[j]) && Apart(Taken(free[k], n, pid), alloc[j])
    {
      TakeApart(free, k, n, pid, alloc[j]);
    }
  }

  lemma TakePartition(lo: int, hi: int, free: seq<Block>, alloc: seq<Block>, k: nat, n: nat, pid: nat)
    requires Partition(lo, hi, free, alloc)
    requires k < |free|
    ensures Partition(lo, hi, TakeFrom(free, k, n), [Taken(free[k], n, pid)] + alloc)
  {
    var t := Taken(free[k], n, pid);
    var rest := TakeFrom(free, k, n);
    assert Fills(lo, hi, rest, [t] + alloc) by {
      TakeCover(free, k, n, pid);
      CoverConcat([t], alloc);
      SingleCover(t);
    }
    TakeDisjoint(free, alloc, k, n, pid);
  }

  // What Partition means, byte by byte: every address of the heap lies in
  // exactly one block, and no address outside it lies in any.
  lemma PartitionMeaning(lo: int, hi: int, free: seq<Block>, alloc: seq<Block>, x: int)
    requires Partition(lo, hi, free, alloc)
    ensures var all := free + alloc;
            && (lo <= x < hi <==> exists i :: 0 <= i < |all| && Holds(all[i], x))
            && (forall i, j | 0 <= i < j < |all| :: !(Holds(all[i], x) && Holds(all[j], x)))
  {
    var all := free + alloc;
    CoverConcat(free, alloc);
    CoverWitness(all, x);
    assert lo <= x < hi <==> x in Cover(all);
    forall i, j | 0 <= i < j < |all|
      ensures !(Holds(all[i], x) && Holds(all[j], x))
    {
      if i < |free| <= j {
        assert AllApart(free, alloc[j - |free|]);
      }
      assert Apart(all[i], all[j]);
    }
  }

  // No block reaches outside [lo, hi), so no address sum made from one wraps.
  lemma BlockBounds(lo: int, hi: int, free: seq<Block>, alloc: seq<Block>, i: nat)
    requires Partition(lo, hi, free, alloc) && i < |free + alloc|
    ensures var b := (free + alloc)[i];
            lo <= b.start && b.End() <= hi && b.size <= hi - lo - HEADER
  {
    var all := free + alloc;
    CoverConcat(free, alloc);
    CoverMember(all, i);
    assert Within(all[i].start, all[i].start, all[i].End()) && Within(all[i].start, all[i].End() - 1, all[i].End());
    assert all[i].start in all[i].Extent() && all[i].End() - 1 in all[i].Extent();
  }

  // ----- reclaiming a process -------------------------------------------------

  // The free list with its back links, and the allocated list.
  datatype Lists = Lists(free: seq<Block>, prevs: seq<nat>, alloc: seq<Block>) {
    ghost predicate Fit() { |free| == |prevs| }
  }

  // The k-th allocated block handed back.
  ghost function Freed(s: Lists, k: nat): (t: Lists)
    requires s.Fit() && k < |s.alloc|
    ensures t.Fit()
  {
    var b := s.alloc[k].(owner := 0);
    Lists(Release(s.free, b), ReleasePrevs(s.free, b, s.prevs), Without(s.alloc, k))
  }

  // clean_heap from the k-th allocated block on: every block of the process is
  // handed back in list order.
  ghost function Clean(s: Lists, pid: nat, k: nat): (t: Lists)
    requires s.Fit() && k <= |s.alloc|
    ensures t.Fit()
    decreases |s.alloc| - k
  {
    if k == |s.alloc| then s
    else if s.alloc[k].owner == pid then Clean(Freed(s, k), pid, k)
    else Clean(s, pid, k + 1)
  }

  lemma FreedAlloc(s: Lists, k: nat)
    requires s.Fit() && k < |s.alloc|
    ensures Freed(s, k).alloc[..k] == s.alloc[..k] && Freed(s, k).alloc[k..] == s.alloc[k + 1..]
  {
    assert Without(s.alloc, k) == s.alloc[..k] + s.alloc[k + 1..];
  }

  lemma FreedCover(s: Lists, k: nat)
    requires s.Fit() && k < |s.alloc|
    ensures Cover(Freed(s, k).free) == Cover(s.free) + s.alloc[k].Extent()
  {
    ReleaseCover(s.free, s.alloc[k].(owner := 0));
    assert s.alloc[k].(owner := 0).Extent() == s.alloc[k].Extent();
  }

  lemma OwnedMore(b: Block, rest: seq<Block>, pid: nat)
    ensures NotOwned([b] + rest, pid) == (if b.owner == pid then [] else [b]) + NotOwned(rest, pid)
    ensures Cover(Owned([b] + rest, pid)) == (if b.owner == pid then b.Extent() else {}) + Cover(Owned(rest, pid))
  {
    assert ([b] + rest)[1..] == rest;
    var owned := Owned(rest, pid);
    if b.owner == pid {
      CoverConcat([b], owned);
      SingleCover(b);
    } else {
      assert [] + owned == owned;
    }
  }

  lemma {:induction false} CleanAlloc(s: Lists, pid: nat, k: nat)
    requires s.Fit() && k <= |s.alloc|
    ensures Clean(s, pid, k).alloc == s.alloc[..k] + NotOwned(s.alloc[k..], pid)
    decreases |s.alloc| - k
  {
    if k < |s.alloc| {
      var b, rest := s.alloc[k], s.alloc[k + 1..];
      assert s.alloc[k..] == [b] + rest;
      OwnedMore(b, rest, pid);
      if b.owner == pid {
        FreedAlloc(s, k);
        CleanAlloc(Freed(s, k), pid, k);
      } else {
        CleanAlloc(s, pid, k + 1);
        assert s.alloc[..k + 1] == s.alloc[..k] + [b];
      }
    }
  }

  lemma {:induction false} CleanFree(s: Lists, pid: nat, k: nat)
    requires s.Fit() && k <= |s.alloc|
    ensures Cover(Clean(s, pid, k).free) == Cover(s.free) + Cover(Owned(s.alloc[k..], pid))
    decreases |s.alloc| - k
  {
    if k < |s.alloc| {
      var b, rest := s.alloc[k], s.alloc[k + 1..];
      assert s.alloc[k..] == [b] + rest;
      OwnedMore(b, rest, pid);
      if b.owner == pid {
        FreedAlloc(s, k);
        FreedCover(s, k);
        CleanFree(Freed(s, k), pid, k);
      } else {
        CleanFree(s, pid, k + 1);
      }
    }
  }

  // Exactly the blocks of other owners survive, in order, and exactly the bytes
  // of the process's blocks become free.
  lemma CleanResult(s: Lists, pid: nat)
    requires s.Fit()
    ensures Clean(s, pid, 0).alloc == NotOwned(s.alloc, pid)
    ensures Cover(Clean(s, pid, 0).free) == Cover(s.free) + Cover(Owned(s.alloc, pid))
  {
    assert s.alloc[..0] == [] && s.alloc[0..] == s.alloc;
    CleanAlloc(s, pid, 0);
    CleanFree(s, pid, 0);
  }

  lemma {:induction false} CleanPartition(lo: int, hi: int, s: Lists, pid: nat, k: nat)
    requires s.Fit() && k <= |s.alloc| && Partition(lo, hi, s.free, s.alloc)
    ensures Partition(lo, hi, Clean(s, pid, k).free, Clean(s, pid, k).alloc)
    decreases |s.alloc| - k
  {
    if k < |s.alloc| {
      if s.alloc[k].owner == pid {
        ReleasePartition(lo, hi, s.free, s.alloc, k);
        CleanPartition(lo, hi, Freed(s, k), pid, k);
      } else {
        CleanPartition(lo, hi, s, pid, k + 1);
      }
    }
  }

  // The survivors are exactly the blocks of other owners.
  lemma {:induction false} NotOwnedMembers(bs: seq<Block>, pid: nat, b: Block)
    ensures b in NotOwned(bs, pid) <==> b in bs && b.owner != pid
    ensures b in Owned(bs, pid) <==> b in bs && b.owner == pid
  {
    if bs != [] {
      NotOwnedMembers(bs[1..], pid, b);
    }
  }

  // The place in the list of the block that starts at `a`, |bs| if there is none.
  ghost function Find(bs: seq<Block>, a: int): (k: nat)
    ensures k <= |bs|
    ensures forall i | 0 <= i < k :: bs[i].start != a
    ensures k < |bs| ==> bs[k].start == a
  {
    if bs == [] || bs[0].start == a then 0 else 1 + Find(bs[1..], a)
  }

  // ----- whole runs -----------------------------------------------------------

  datatype Op = Malloc(nbytes: nat, pid: nat) | Free(ptr: nat, pid: nat) | CleanUp(pid: nat)

  // An allocation from the k-th free block.
  ghost function TakeAt(s: Lists, k: nat, n: nat, pid: nat, repaired: bool): (t: Lists)
    requires s.Fit() && k < |s.free|
    ensures t.Fit()
  {
    Lists(TakeFrom(s.free, k, n), TakePrevs(s.free, k, n, s.prevs, repaired), [Taken(s.free[k], n, pid)] + s.alloc)
  }

  ghost function Step(s: Lists, op: Op, repaired: bool): (t: Lists)
    requires s.Fit()
    ensures t.Fit()
  {
    match op
    case Malloc(n, pid) =>
      var k := FirstFit(s.free, n);
      if n == 0 || k == |s.free| then s else TakeAt(s, k, n, pid, repaired)
    case Free(ptr, pid) =>
      var k := Find(s.alloc, ptr - HEADER);
      if k < |s.alloc| && s.alloc[k].owner == pid then Freed(s, k) else s
    case CleanUp(pid) => Clean(s, pid, 0)
  }

  ghost function Run(s: Lists, ops: seq<Op>, repaired: bool): (t: Lists)
    requires s.Fit()
    ensures t.Fit()
  {
    if ops == [] then s else Step(Run(s, ops[..|ops| - 1], repaired), ops[|ops| - 1], repaired)
  }

  // A free on behalf of pid 0 has to name a block that is allocated, or NULL.
  ghost predicate Named(s: Lists, op: Op) {
    op.Free? && op.pid == 0 ==> op.ptr <= HEADER || Find(s.alloc, op.ptr - HEADER) < |s.alloc|
  }

  // And an allocation is safe when the block it takes has its back link right.
  ghost predicate Safe(s: Lists, op: Op)
    requires s.Fit()
  {
    && Named(s, op)
    && (op.Malloc? ==>
          var k := FirstFit(s.free, op.nbytes);
          op.nbytes == 0 || k == |s.free| || Right(s.free, s.prevs, k))
  }

  ghost predicate NamedRun(s: Lists, ops: seq<Op>, repaired: bool)
    requires s.Fit()
  {
    ops == [] ||
    (NamedRun(s, ops[..|ops| - 1], repaired) && Named(Run(s, ops[..|ops| - 1], repaired), ops[|ops| - 1]))
  }

  ghost predicate SafeRun(s: Lists, ops: seq<Op>, repaired: bool)
    requires s.Fit()
  {
    ops == [] ||
    (SafeRun(s, ops[..|ops| - 1], repaired) && Safe(Run(s, ops[..|ops| - 1], repaired), ops[|ops| - 1]))
  }

  lemma ReprevRight(bs: seq<Block>, r: Slot, prevs: seq<nat>, here: nat, behind: nat, i: nat)
    requires r.from <= r.upto <= |bs| == |prevs| && AllRight(bs, prevs)
    requires here == StartAt(bs, r.from - 1) && (r.upto < |bs| ==> behind == r.block.start)
    requires i < |Put(bs, r)|
    ensures Right(Put(bs, r), Reprev(bs, r, prevs, here, behind), i)
  {
    PutAt(bs, r, i);
    if i > 0 {
      PutAt(bs, r, i - 1);
    }
    if i < r.from {
      assert Right(bs, prevs, i);
    } else if i > r.from + 1 {
      assert Right(bs, prevs, i + r.upto - r.from - 1);
    }
  }

  lemma ReleaseRight(bs: seq<Block>, b: Block, prevs: seq<nat>)
    requires |bs| == |prevs| && AllRight(bs, prevs)
    ensures AllRight(Release(bs, b), ReleasePrevs(bs, b, prevs))
  {
    var r := SlotFor(bs, b);
    var cs, ps := Release(bs, b), ReleasePrevs(bs, b, prevs);
    assert r.from < |bs| ==> Right(bs, prevs, r.from);
    assert r.upto < |bs| ==> Right(bs, prevs, r.upto);
    forall i | 0 <= i < |cs| ensures Right(cs, ps, i) {
      ReprevRight(bs, r, prevs, ReleaseHere(bs, r, prevs), ReleaseBehind(bs, r, prevs), i);
    }
  }

  lemma UnprevRight(bs: seq<Block>, k: nat, prevs: seq<nat>, i: nat)
    requires k < |bs| == |prevs| && AllRight(bs, prevs) && i < |Without(bs, k)|
    ensures Right(Without(bs, k), Unprev(bs, k, prevs), i)
  {
    WithoutAt(bs, k, i);
    if i > 0 {
      WithoutAt(bs, k, i - 1);
    }
    assert Right(bs, prevs, if i < k then i else i + 1);
  }

  // An allocation leaves all back links right exactly when it splits nothing
  // off in front of another free block, or that is repaired.
  lemma TakeRight(bs: seq<Block>, k: nat, n: nat, prevs: seq<nat>, repaired: bool)
    requires k < |bs| == |prevs| && AllRight(bs, prevs)
    ensures AllRight(TakeFrom(bs, k, n), TakePrevs(bs, k, n, prevs, repaired))
       <==> repaired || !Splits(bs[k], n) || k + 1 == |bs|
  {
    var cs, ps := TakeFrom(bs, k, n), TakePrevs(bs, k, n, prevs, repaired);
    if !Splits(bs[k], n) {
      forall i | 0 <= i < |cs| ensures Right(cs, ps, i) {
        UnprevRight(bs, k, prevs, i);
      }
    } else if repaired || k + 1 == |bs| {
      SplitIsPut(bs, k, n);
      forall i | 0 <= i < |cs| ensures Right(cs, ps, i) {
        ReprevRight(bs, Slot(k, k + 1, Surplus(bs[k], n)), prevs, StartAt(bs, k - 1), Surplus(bs[k], n).start, i);
      }
    } else {
      assert Right(bs, prevs, k + 1);
      assert !Right(cs, ps, k + 1);
    }
  }

  lemma {:induction false} CleanRight(s: Lists, pid: nat, k: nat)
    requires s.Fit() && k <= |s.alloc| && AllRight(s.free, s.prevs)
    ensures AllRight(Clean(s, pid, k).free, Clean(s, pid, k).prevs)
    decreases |s.alloc| - k
  {
    if k < |s.alloc| {
      if s.alloc[k].owner == pid {
        ReleaseRight(s.free, s.alloc[k].(owner := 0), s.prevs);
        CleanRight(Freed(s, k), pid, k);
      } else {
        CleanRight(s, pid, k + 1);
      }
    }
  }

  lemma RepairedStep(s: Lists, op: Op)
    requires s.Fit() && AllRight(s.free, s.prevs)
    ensures AllRight(Step(s, op, true).free, Step(s, op, true).prevs)
    ensures Safe(s, op) <==> Named(s, op)
  {
    match op
    case Malloc(n, _) =>
      var k := FirstFit(s.free, n);
      if k < |s.free| {
        TakeRight(s.free, k, n, s.prevs, true);
        assert Right(s.free, s.prevs, k);
      }
    case Free(ptr, _) =>
      var k := Find(s.alloc, ptr - HEADER);
      if k < |s.alloc| {
        ReleaseRight(s.free, s.alloc[k].(owner := 0), s.prevs);
      }
    case CleanUp(pid) => CleanRight(s, pid, 0);
  }

  // With the repair no back link ever goes wrong, and every run is safe as far as
  // they are concerned.
  lemma {:induction false} RepairedSafe(s: Lists, ops: seq<Op>)
    requires s.Fit() && AllRight(s.free, s.prevs)
    ensures AllRight(Run(s, ops, true).free, Run(s, ops, true).prevs)
    ensures SafeRun(s, ops, true) <==> NamedRun(s, ops, true)
  {
    if ops != [] {
      RepairedSafe(s, ops[..|ops| - 1]);
      RepairedStep(Run(s, ops[..|ops| - 1], true), ops[|ops| - 1]);
    }
  }

  lemma MallocPartition(lo: int, hi: int, s: Lists, n: nat, pid: nat, repaired: bool)
    requires s.Fit() && Partition(lo, hi, s.free, s.alloc)
    ensures var t := Step(s, Malloc(n, pid), repaired); Partition(lo, hi, t.free, t.alloc)
  {
    var k := FirstFit(s.free, n);
    if n != 0 && k < |s.free| {
      TakePartition(lo, hi, s.free, s.alloc, k, n, pid);
    }
  }

  lemma FreePartition(lo: int, hi: int, s: Lists, ptr: nat, pid: nat, repaired: bool)
    requires s.Fit() && Partition(lo, hi, s.free, s.alloc)
    ensures var t := Step(s, Free(ptr, pid), repaired); Partition(lo, hi, t.free, t.alloc)
  {
    var k := Find(s.alloc, ptr - HEADER);
    if k < |s.alloc| && s.alloc[k].owner == pid {
      ReleasePartition(lo, hi, s.free, s.alloc, k);
    }
  }

  lemma StepPartition(lo: int, hi: int, s: Lists, op: Op, repaired: bool)
    requires s.Fit() && Partition(lo, hi, s.free, s.alloc)
    ensures Partition(lo, hi, Step(s, op, repaired).free, Step(s, op, repaired).alloc)
  {
    match op
    case Malloc(n, pid) => MallocPartition(lo, hi, s, n, pid, repaired);
    case Free(ptr, pid) => FreePartition(lo, hi, s, ptr, pid, repaired);
    case CleanUp(pid) => CleanPartition(lo, hi, s, pid, 0);
  }

  // After any sequence of operations free and allocated blocks, headers
  // included, still partition the heap.
  lemma {:induction false} RunPartition(lo: int, hi: int, s: Lists, ops: seq<Op>, repaired: bool)
    requires s.Fit() && Partition(lo, hi, s.free, s.alloc)
    ensures Partition(lo, hi, Run(s, ops, repaired).free, Run(s, ops, repaired).alloc)
  {
    if ops != [] {
      RunPartition(lo, hi, s, ops[..|ops| - 1], repaired);
      StepPartition(lo, hi, Run(s, ops[..|ops| - 1], repaired), ops[|ops| - 1], repaired);
    }
  }

  // The heap as init_heap leaves it.
  function Initial(lo: nat, hi: nat): Lists
    requires lo + HEADER <= hi
  {
    Lists([Block(lo, hi - lo - HEADER, 0)], [NULL], [])
  }

  lemma FromStart(lo: nat, hi: nat, ops: seq<Op>, repaired: bool)
    requires lo + HEADER <= hi
    ensures var s := Run(Initial(lo, hi), ops, repaired); Partition(lo, hi, s.free, s.alloc)
    ensures SafeRun(Initial(lo, hi), ops, true) <==> NamedRun(Initial(lo, hi), ops, true)
  {
    var s := Initial(lo, hi);
    SingleCover(s.free[0]);
    RunPartition(lo, hi, s, ops, repaired);
    assert Right(s.free, s.prevs, 0);
    RepairedSafe(s, ops);
  }
}
